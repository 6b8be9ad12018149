/**
 Removing dot segments from a path, by the byte-level loop of section 5.2.4 of RFC 3986 and by a
 stack of segments, and the proof that they agree.
 */
module UriPaths {
  import opened Strings
  import opened Wrappers

  // --- Segments -----------------------------------------------------------------------------------------

  function FindSlash(s: string): (i: nat)
    ensures i <= |s| && '/' !in s[..i] && (i < |s| ==> s[i] == '/')
  {
    if s == [] || s[0] == '/' then 0 else 1 + FindSlash(s[1..])
  }

  /** Where the last slash is. */
  function LastSlash(s: string): (i: Option<nat>)
    ensures i.Some? ==> i.value < |s| && s[i.value] == '/' && '/' !in s[i.value + 1..]
    ensures i.None? ==> '/' !in s
  {
    if s == [] then None
    else if s[|s| - 1] == '/' then Some(|s| - 1)
    else LastSlash(s[..|s| - 1])
  }

  predicate IsSegment(s: string) {
    '/' !in s
  }

  predicate AreSegments(segs: seq<string>) {
    forall s | s in segs :: IsSegment(s)
  }

  /** Segments, each with a slash before it. */
  function Slashed(segs: seq<string>): string {
    if segs == [] then "" else "/" + segs[0] + Slashed(segs[1..])
  }

  /** Segments with slashes between them. */
  function Glued(segs: seq<string>): string
    requires segs != []
  {
    segs[0] + Slashed(segs[1..])
  }

  /** A path's segments; a path that begins with a slash has an empty first one. */
  function Split(s: string): (segs: seq<string>)
    ensures segs != []
    decreases |s|
  {
    var i := FindSlash(s);
    if i == |s| then [s] else [s[..i]] + Split(s[i + 1..])
  }

  lemma GluedMore(first: string, rest: seq<string>)
    requires rest != []
    ensures Glued([first] + rest) == first + ("/" + Glued(rest))
  {
    assert ([first] + rest)[1..] == rest;
    assert Slashed(rest) == "/" + Glued(rest);
  }

  lemma Cut(s: string, i: nat)
    requires i < |s| && s[i] == '/'
    ensures s == s[..i] + ("/" + s[i + 1..])
  {
  }

  lemma GluedOne(s: string)
    ensures Glued([s]) == s
  {
    assert [s][1..] == [];
  }

  lemma SplitStep(s: string)
    ensures var i := FindSlash(s);
            if i == |s| then Split(s) == [s] && IsSegment(s)
            else Split(s) == [s[..i]] + Split(s[i + 1..]) && IsSegment(s[..i])
  {
    hide FindSlash;
    var i := FindSlash(s);
    if i == |s| {
      assert s[..i] == s;
    }
  }

  lemma {:induction false} SplitGlued(s: string)
    ensures AreSegments(Split(s)) && Glued(Split(s)) == s
    decreases |s|
  {
    SplitStep(s);
    GluedOne(s);
    hide Split, IsSegment, Slashed, Glued, FindSlash;
    var i := FindSlash(s);
    if i < |s| {
      SplitGlued(s[i + 1..]);
      GluedMore(s[..i], Split(s[i + 1..]));
      Cut(s, i);
    }
  }

  lemma {:induction false} FindSlashIs(a: string, rest: string)
    requires IsSegment(a) && (rest != "" ==> rest[0] == '/')
    ensures FindSlash(a + rest) == |a|
  {
    if a == [] {
      assert a + rest == rest;
    } else {
      FindSlashIs(a[1..], rest);
      assert (a + rest)[1..] == a[1..] + rest;
    }
  }

  lemma SplitFirst(a: string, rest: string)
    requires IsSegment(a)
    ensures Split(a) == [a] && Split(a + ("/" + rest)) == [a] + Split(rest)
  {
    FindSlashIs(a, "");
    assert a + "" == a;
    FindSlashIs(a, "/" + rest);
    var s := a + ("/" + rest);
    assert s[..|a|] == a && s[|a| + 1..] == rest;
  }

  lemma {:induction false} GluedSplit(segs: seq<string>)
    requires segs != [] && AreSegments(segs)
    ensures Split(Glued(segs)) == segs
    decreases |segs|
  {
    hide Split;
    assert segs[0] in segs;
    if |segs| > 1 {
      assert AreSegments(segs[1..]);
      GluedSplit(segs[1..]);
      assert Glued(segs) == segs[0] + ("/" + Glued(segs[1..]));
      SplitFirst(segs[0], Glued(segs[1..]));
    } else {
      SplitFirst(segs[0], "");
      assert Glued(segs) == segs[0];
    }
  }

  lemma Regrouped(a: string, b: string, c: string)
    ensures a + (b + c) == (a + b) + c
  {
  }

  lemma {:induction false} SlashedBoth(a: seq<string>, b: seq<string>)
    ensures Slashed(a + b) == Slashed(a) + Slashed(b)
  {
    if a == [] {
      assert a + b == b;
    } else {
      SlashedBoth(a[1..], b);
      assert (a + b)[1..] == a[1..] + b;
      Regrouped("/" + a[0], Slashed(a[1..]), Slashed(b));
    }
  }

  // --- The loop -----------------------------------------------------------------------------------------

  /** Removes the last segment, including the slash before it. */
  function Popped(out: string): string {
    match LastSlash(out)
    case Some(i) => out[..i]
    case None => ""
  }

  /** The length of the first segment, including the slash before it if there is one. */
  function SegmentLength(input: string): (n: nat)
    requires input != ""
    ensures 0 < n <= |input|
  {
    if input[0] == '/' then 1 + FindSlash(input[1..]) else FindSlash(input)
  }

  /** One turn of the loop: what is left of the input, and the output so far. */
  function Turn(input: string, out: string): (r: (string, string))
    requires input != ""
    ensures |r.0| < |input|
  {
    if StartsWith(input, "../") then (input[3..], out)
    else if StartsWith(input, "./") then (input[2..], out)
    else if StartsWith(input, "/./") then (input[2..], out)
    else if input == "/." then ("/", out)
    else if StartsWith(input, "/../") then (input[3..], Popped(out))
    else if input == "/.." then ("/", Popped(out))
    else if input == "." || input == ".." then ("", out)
    else (input[SegmentLength(input)..], out + input[..SegmentLength(input)])
  }

  function Turns(input: string, out: string): string
    decreases |input|
  {
    if input == "" then out else Turns(Turn(input, out).0, Turn(input, out).1)
  }

  function RemoveDotSegments(path: string): string {
    Turns(path, "")
  }

  method RemoveDots(path: string) returns (out: string)
    ensures out == RemoveDotSegments(path)
  {
    hide SegmentLength, Popped;
    var input := path;
    out := "";
    while input != ""
      invariant Turns(input, out) == RemoveDotSegments(path)
      decreases |input|
    {
      if StartsWith(input, "../") {
        input := input[3..];
      } else if StartsWith(input, "./") {
        input := input[2..];
      } else if StartsWith(input, "/./") {
        input := input[2..];
      } else if input == "/." {
        input := "/";
      } else if StartsWith(input, "/../") {
        input := input[3..];
        out := PopSegment(out);
      } else if input == "/.." {
        input := "/";
        out := PopSegment(out);
      } else if input == "." || input == ".." {
        input := "";
      } else {
        var end := SegmentLength(input);
        input, out := input[end..], out + input[..end];
      }
    }
  }

  method PopSegment(out: string) returns (r: string)
    ensures r == Popped(out)
  {
    var i := |out|;
    while i > 0 && out[i - 1] != '/'
      invariant 0 <= i <= |out| && '/' !in out[i..]
    {
      i := i - 1;
      assert out[i..] == [out[i]] + out[i + 1..];
    }
    LastSlashIs(out, i);
    return if i > 0 then out[..i - 1] else "";
  }

  lemma {:induction false} LastSlashIs(s: string, i: nat)
    requires i <= |s| && '/' !in s[i..] && (i > 0 ==> s[i - 1] == '/')
    ensures LastSlash(s) == if i > 0 then Some(i - 1) else None
    decreases |s| - i
  {
    if i < |s| {
      assert s[|s| - 1] in s[i..];
      assert s[..|s| - 1][i..] == s[i..|s| - 1];
      LastSlashIs(s[..|s| - 1], i);
    }
  }

  // --- The stack ----------------------------------------------------------------------------------------

  predicate IsDot(s: string) {
    s == "." || s == ".."
  }

  predicate NoDots(segs: seq<string>) {
    forall s | s in segs :: !IsDot(s)
  }

  predicate IsDotFree(path: string) {
    NoDots(Split(path))
  }

  /** What the loop has put out: a first segment, which may be empty, and those after it. */
  datatype Stack = Stack(first: string, rest: seq<string>) {
    function Text(): string {
      first + Slashed(rest)
    }

    /** The last segment goes, and where only the first is left it goes. */
    function Pop(): Stack {
      if rest == [] then Stack("", []) else Stack(first, rest[..|rest| - 1])
    }

    function Push(s: string): Stack {
      Stack(first, rest + [s])
    }
  }

  /**
   Segments processed one by one: `.` is dropped, `..` takes back the segment before it, and either at
   the end of the path leaves an empty segment behind. Empty segments are kept.
   */
  function Processed(segs: seq<string>, stack: Stack): Stack
    decreases |segs|
  {
    if segs == [] then stack
    else
      var after := if segs[0] == "." then stack else if segs[0] == ".." then stack.Pop() else stack.Push(segs[0]);
      if |segs| == 1 && IsDot(segs[0]) then after.Push("") else Processed(segs[1..], after)
  }

  /** A path that begins with a slash, by its segments. */
  function Resolved(segs: seq<string>): string {
    Processed(segs, Stack("", [])).Text()
  }

  lemma PoppedText(stack: Stack)
    requires IsSegment(stack.first) && AreSegments(stack.rest)
    ensures Popped(stack.Text()) == stack.Pop().Text()
  {
    if stack.rest == [] {
      assert stack.Text() == stack.first;
    } else {
      var n := |stack.rest| - 1;
      assert stack.rest == stack.rest[..n] + [stack.rest[n]];
      SlashedBoth(stack.rest[..n], [stack.rest[n]]);
      assert Slashed([stack.rest[n]]) == "/" + stack.rest[n];
      var head := stack.first + Slashed(stack.rest[..n]);
      assert stack.Text() == head + ("/" + stack.rest[n]);
      assert stack.rest[n] in stack.rest;
      assert stack.Text()[|head| + 1..] == stack.rest[n];
      LastSlashIs(stack.Text(), |head| + 1);
      assert stack.Text()[..|head|] == head;
    }
  }

  lemma PushedText(stack: Stack, s: string)
    ensures stack.Push(s).Text() == stack.Text() + ("/" + s)
  {
    SlashedBoth(stack.rest, [s]);
    assert Slashed([s]) == "/" + s;
  }

  // --- The loop is the stack ----------------------------------------------------------------------------

  /** What is left of the input is some segments, each with its slash: one turn of the loop, or two. */
  lemma TurnIs(segs: seq<string>, stack: Stack)
    requires segs != [] && AreSegments(segs) && IsSegment(stack.first) && AreSegments(stack.rest)
    ensures Slashed(segs) != ""
    ensures segs[0] == "." && |segs| > 1 ==> Turn(Slashed(segs), stack.Text()) == (Slashed(segs[1..]), stack.Text())
    ensures segs[0] == "." && |segs| == 1 ==> Turn(Slashed(segs), stack.Text()) == ("/", stack.Text())
    ensures segs[0] == ".." && |segs| > 1 ==> Turn(Slashed(segs), stack.Text()) == (Slashed(segs[1..]), stack.Pop().Text())
    ensures segs[0] == ".." && |segs| == 1 ==> Turn(Slashed(segs), stack.Text()) == ("/", stack.Pop().Text())
    ensures !IsDot(segs[0]) ==> Turn(Slashed(segs), stack.Text()) == (Slashed(segs[1..]), stack.Push(segs[0]).Text())
  {
    var input := Slashed(segs);
    var rest := Slashed(segs[1..]);
    assert input == "/" + segs[0] + rest;
    if segs[0] == "." {
      DotTurn(segs, stack.Text());
    } else if segs[0] == ".." {
      PoppedText(stack);
      DotDotTurn(segs, stack.Text());
    } else {
      PushedText(stack, segs[0]);
      PlainTurn(segs, stack.Text());
    }
  }

  lemma TurnDot(rest: string, out: string)
    requires rest != "" ==> rest[0] == '/'
    ensures Turn("/." + rest, out) == (if rest != "" then rest else "/", out)
  {
    hide Popped, SegmentLength;
    var input := "/." + rest;
    assert input[0] == '/' && input[1] == '.' && input[2..] == rest;
    if rest != "" {
      assert input[2] == '/';
    } else {
      assert input == "/.";
    }
  }

  lemma TurnDotDot(rest: string, out: string)
    requires rest != "" ==> rest[0] == '/'
    ensures Turn("/.." + rest, out) == (if rest != "" then rest else "/", Popped(out))
  {
    hide Popped, SegmentLength;
    var input := "/.." + rest;
    assert input[0] == '/' && input[1] == '.' && input[2] == '.' && input[3..] == rest;
    if rest != "" {
      assert input[3] == '/';
    } else {
      assert input == "/..";
    }
  }

  lemma DotTurn(segs: seq<string>, out: string)
    requires segs != [] && segs[0] == "."
    ensures Slashed(segs) != "" && Turn(Slashed(segs), out) == (if |segs| > 1 then Slashed(segs[1..]) else "/", out)
  {
    TurnDot(Slashed(segs[1..]), out);
    assert Slashed(segs) == "/." + Slashed(segs[1..]) by {
      assert "/" + "." == "/.";
    }
    hide *;
  }

  lemma DotDotTurn(segs: seq<string>, out: string)
    requires segs != [] && segs[0] == ".."
    ensures Slashed(segs) != "" && Turn(Slashed(segs), out) == (if |segs| > 1 then Slashed(segs[1..]) else "/", Popped(out))
  {
    TurnDotDot(Slashed(segs[1..]), out);
    assert Slashed(segs) == "/.." + Slashed(segs[1..]) by {
      assert "/" + ".." == "/..";
    }
    hide *;
  }

  lemma PlainTurn(segs: seq<string>, out: string)
    requires segs != [] && AreSegments(segs) && !IsDot(segs[0])
    ensures Slashed(segs) != "" && Turn(Slashed(segs), out) == (Slashed(segs[1..]), out + ("/" + segs[0]))
  {
    hide Popped;
    var input := Slashed(segs);
    var rest := Slashed(segs[1..]);
    assert segs[0] in segs;
    assert input == "/" + (segs[0] + rest);
    assert input[1..] == segs[0] + rest;
    assert rest != "" ==> rest[0] == '/';
    FindSlashIs(segs[0], rest);
    assert SegmentLength(input) == 1 + |segs[0]|;
    assert input[..1 + |segs[0]|] == "/" + segs[0];
    assert input[1 + |segs[0]|..] == rest;
    NotADotSegment(segs[0], rest);
  }

  /** A segment that is not a dot segment is not read as one, whatever follows it. */
  lemma NotADotSegment(s: string, rest: string)
    requires IsSegment(s) && !IsDot(s) && (rest != "" ==> rest[0] == '/')
    ensures var input := "/" + (s + rest);
            && !StartsWith(input, "../") && !StartsWith(input, "./") && input != "." && input != ".."
            && !StartsWith(input, "/./") && input != "/." && !StartsWith(input, "/../") && input != "/.."
  {
    var input := "/" + (s + rest);
    assert input[0] == '/';
    assert s == "" && rest != "" ==> input[1] == '/';
    assert s != "" ==> input[1] == s[0] && s[0] in s;
    assert |s| == 1 && s[0] == '.' ==> s == ".";
    assert |s| >= 2 ==> input[2] == s[1] && s[1] in s;
    assert |s| == 2 && s[0] == '.' && s[1] == '.' ==> s == "..";
    assert |s| >= 3 ==> input[3] == s[2] && s[2] in s;
  }

  lemma LoneSlash(out: string)
    ensures Turns("/", out) == out + "/"
  {
    assert SegmentLength("/") == 1 && "/"[1..] == "" && "/"[..1] == "/";
    assert Turn("/", out) == ("", out + "/");
    assert Turns("", out + "/") == out + "/";
  }

  predicate AreFine(stack: Stack) {
    IsSegment(stack.first) && AreSegments(stack.rest)
  }

  lemma PushFine(stack: Stack, s: string)
    requires AreFine(stack) && IsSegment(s)
    ensures AreFine(stack.Push(s)) && AreFine(stack.Pop())
  {
  }

  /** Segment by segment, the loop does what the stack does. */
  lemma {:induction false} LoopIsStack(segs: seq<string>, stack: Stack)
    requires AreSegments(segs) && AreFine(stack)
    ensures Turns(Slashed(segs), stack.Text()) == Processed(segs, stack).Text()
    decreases |segs|
  {
    if segs != [] {
      TurnIs(segs, stack);
      assert segs[0] in segs;
      PushFine(stack, segs[0]);
      hide Turn, Slashed, Stack.Text, AreFine;
      var after := if segs[0] == "." then stack else if segs[0] == ".." then stack.Pop() else stack.Push(segs[0]);
      if |segs| == 1 && IsDot(segs[0]) {
        LoneSlash(after.Text());
        PushedText(after, "");
      } else {
        assert AreSegments(segs[1..]);
        LoopIsStack(segs[1..], after);
      }
    } else {
      assert Slashed(segs) == "";
    }
  }

  /** On a path that begins with a slash, the loop is the stack. */
  lemma RemovesByStack(path: string)
    requires path != "" && path[0] == '/'
    ensures Split(path)[0] == "" && RemoveDotSegments(path) == Resolved(Split(path)[1..])
  {
    SplitGlued(path);
    var segs := Split(path);
    assert segs[0] == "" by {
      SplitFirst("", path[1..]);
      assert "" + ("/" + path[1..]) == path;
    }
    assert path == Slashed(segs[1..]);
    assert AreSegments(segs[1..]);
    LoopIsStack(segs[1..], Stack("", []));
    assert Stack("", []).Text() == "";
  }

  // --- Every path ---------------------------------------------------------------------------------------------

  /**
   A whole path by its segments: dot segments it begins with are dropped, and what follows its first
   segment is processed on the stack.
   */
  function ProcessedAll(segs: seq<string>): Stack
    requires segs != []
    decreases |segs|
  {
    if segs[0] == "" then Processed(segs[1..], Stack("", []))
    else if !IsDot(segs[0]) then Processed(segs[1..], Stack(segs[0], []))
    else if |segs| == 1 then Stack("", [])
    else ProcessedAll(segs[1..])
  }

  /** A path that begins with a segment of its own: the first turn. */
  lemma FirstTurn(segs: seq<string>)
    requires segs != [] && AreSegments(segs) && segs[0] != ""
    ensures Glued(segs) != ""
    ensures IsDot(segs[0]) && |segs| > 1 ==> Turn(Glued(segs), "") == (Glued(segs[1..]), "")
    ensures IsDot(segs[0]) && |segs| == 1 ==> Turn(Glued(segs), "") == ("", "")
    ensures !IsDot(segs[0]) ==> Turn(Glued(segs), "") == (Slashed(segs[1..]), segs[0])
  {
    hide Popped;
    var input, rest := Glued(segs), Slashed(segs[1..]);
    assert segs[0] in segs;
    assert input[0] == segs[0][0] && input[0] in segs[0];
    if |segs| > 1 {
      assert rest == "/" + Glued(segs[1..]);
    }
    hide Slashed, Glued;
    if IsDot(segs[0]) {
      FirstTurnDot(segs[0], rest);
    } else {
      FirstTurnPlain(segs[0], rest);
    }
  }

  lemma FirstTurnDot(dot: string, rest: string)
    requires IsDot(dot) && (rest != "" ==> rest[0] == '/')
    ensures Turn(dot + rest, "") == (if rest == "" then "" else rest[1..], "")
  {
    hide Popped, SegmentLength;
    var input := dot + rest;
    assert input[0] == '.';
    if rest != "" {
      assert dot == "." ==> input[1] == '/' && input[2..] == rest[1..];
      assert dot == ".." ==> input[1] == '.' && input[2] == '/' && input[3..] == rest[1..];
    } else {
      assert input == dot;
    }
  }

  lemma FirstTurnPlain(first: string, rest: string)
    requires first != "" && IsSegment(first) && !IsDot(first) && (rest != "" ==> rest[0] == '/')
    ensures Turn(first + rest, "") == (rest, first)
  {
    hide Popped;
    var input := first + rest;
    assert input[0] == first[0] && first[0] in first;
    assert |first| == 1 && rest != "" ==> input[1] == '/';
    assert |first| >= 2 ==> input[1] == first[1] && first[1] in first;
    assert |first| == 2 && rest != "" ==> input[2] == '/';
    assert |first| >= 3 ==> input[2] == first[2] && first[2] in first;
    assert |first| == 1 && first[0] == '.' ==> first == ".";
    assert |first| == 2 && first[0] == '.' && first[1] == '.' ==> first == "..";
    FindSlashIs(first, rest);
    assert input[..|first|] == first && input[|first|..] == rest;
    assert "" + input[..|first|] == first && SegmentLength(input) == |first|;
    assert rest == "" ==> input == first;
  }

  lemma {:induction false} TurnsAll(segs: seq<string>)
    requires segs != [] && AreSegments(segs)
    ensures Turns(Glued(segs), "") == ProcessedAll(segs).Text()
    decreases |segs|
  {
    assert segs[0] in segs && AreSegments(segs[1..]);
    if segs[0] == "" {
      assert Glued(segs) == Slashed(segs[1..]);
      LoopIsStack(segs[1..], Stack("", []));
      assert Stack("", []).Text() == "";
    } else {
      FirstTurn(segs);
      if !IsDot(segs[0]) {
        LoopIsStack(segs[1..], Stack(segs[0], []));
        assert Stack(segs[0], []).Text() == segs[0];
      } else if |segs| > 1 {
        TurnsAll(segs[1..]);
      } else {
        assert Turns("", "") == "";
      }
    }
  }

  /** The loop, on every path there is. */
  lemma RemovesBySegments(path: string)
    ensures RemoveDotSegments(path) == ProcessedAll(Split(path)).Text()
  {
    SplitGlued(path);
    TurnsAll(Split(path));
  }

  /** The stack's segments are some of the path's, or empty, and none is a dot segment. */
  predicate ComesFrom(stack: Stack, segs: seq<string>) {
    && (stack.first == "" || stack.first in segs) && !IsDot(stack.first)
    && forall s | s in stack.rest :: (s == "" || s in segs) && !IsDot(s)
  }

  lemma {:induction false} ProcessedComesFrom(segs: seq<string>, stack: Stack, all: seq<string>)
    requires ComesFrom(stack, all) && forall s | s in segs :: s in all
    ensures ComesFrom(Processed(segs, stack), all)
    decreases |segs|
  {
    if segs != [] {
      var after := if segs[0] == "." then stack else if segs[0] == ".." then stack.Pop() else stack.Push(segs[0]);
      assert segs[0] in all;
      assert ComesFrom(after, all);
      if !(|segs| == 1 && IsDot(segs[0])) {
        ProcessedComesFrom(segs[1..], after, all);
      }
    }
  }

  lemma {:induction false} AllComesFrom(segs: seq<string>, all: seq<string>)
    requires segs != [] && forall s | s in segs :: s in all
    ensures ComesFrom(ProcessedAll(segs), all)
    decreases |segs|
  {
    assert segs[0] in all;
    if segs[0] == "" {
      ProcessedComesFrom(segs[1..], Stack("", []), all);
    } else if !IsDot(segs[0]) {
      ProcessedComesFrom(segs[1..], Stack(segs[0], []), all);
    } else if |segs| > 1 {
      AllComesFrom(segs[1..], all);
    }
  }

  /** The segments of the output are segments of the input, or empty; and they can be read off. */
  lemma SegmentsLeft(path: string) returns (stack: Stack)
    ensures stack == ProcessedAll(Split(path)) && ComesFrom(stack, Split(path))
    ensures RemoveDotSegments(path) == stack.Text() && Split(RemoveDotSegments(path)) == [stack.first] + stack.rest
  {
    stack := ProcessedAll(Split(path));
    RemovesBySegments(path);
    SplitGlued(path);
    AllComesFrom(Split(path), Split(path));
    var segs := [stack.first] + stack.rest;
    assert segs[1..] == stack.rest;
    assert Glued(segs) == stack.Text();
    forall s | s in segs ensures IsSegment(s) {
      if s != "" {
        assert s in Split(path);
      }
    }
    GluedSplit(segs);
  }

  /** No dot segment is left, on any path. */
  lemma NoDotSegmentIsLeft(path: string)
    ensures IsDotFree(RemoveDotSegments(path))
  {
    var stack := SegmentsLeft(path);
  }

  lemma {:induction false} NothingToProcess(segs: seq<string>, stack: Stack)
    requires NoDots(segs)
    ensures Processed(segs, stack) == Stack(stack.first, stack.rest + segs)
    decreases |segs|
  {
    if segs != [] {
      assert segs[0] in segs;
      NothingToProcess(segs[1..], stack.Push(segs[0]));
      assert stack.rest + [segs[0]] + segs[1..] == stack.rest + segs;
    } else {
      assert stack.rest + segs == stack.rest;
    }
  }

  /** A path without dot segments is left alone. */
  lemma DotFreeIsUnchanged(path: string)
    requires IsDotFree(path)
    ensures RemoveDotSegments(path) == path
  {
    RemovesBySegments(path);
    SplitGlued(path);
    var segs := Split(path);
    assert segs[0] in segs && NoDots(segs[1..]);
    NothingToProcess(segs[1..], Stack(segs[0], []));
    assert [] + segs[1..] == segs[1..];
  }

  /** Removing dot segments twice is removing them once. */
  lemma RemovingIsIdempotent(path: string)
    ensures RemoveDotSegments(RemoveDotSegments(path)) == RemoveDotSegments(path)
  {
    NoDotSegmentIsLeft(path);
    DotFreeIsUnchanged(RemoveDotSegments(path));
  }

  // --- What removal keeps -----------------------------------------------------------------------------------

  /** A path that begins with a slash still does. */
  lemma {:induction false} ProcessedStaysRooted(segs: seq<string>, stack: Stack)
    requires segs != [] && stack.first == ""
    ensures Processed(segs, stack).first == "" && Processed(segs, stack).rest != []
    decreases |segs|
  {
    var after := if segs[0] == "." then stack else if segs[0] == ".." then stack.Pop() else stack.Push(segs[0]);
    if !(|segs| == 1 && IsDot(segs[0])) && |segs| > 1 {
      ProcessedStaysRooted(segs[1..], after);
    }
  }

  lemma RemovalStaysRooted(path: string)
    requires path != "" && path[0] == '/'
    ensures var r := RemoveDotSegments(path); r != "" && r[0] == '/'
  {
    RemovesByStack(path);
    SplitFirst("", path[1..]);
    assert "" + ("/" + path[1..]) == path;
    ProcessedStaysRooted(Split(path)[1..], Stack("", []));
  }

  lemma {:induction false} SlashedCharacters(segs: seq<string>, c: char)
    requires c in Slashed(segs) && c != '/'
    ensures exists s :: s in segs && c in s
  {
    if c !in segs[0] {
      SlashedCharacters(segs[1..], c);
    } else {
      assert segs[0] in segs;
    }
  }

  lemma {:induction false} SplitCharacters(path: string, s: string, c: char)
    requires s in Split(path) && c in s
    ensures c in path
    decreases |path|
  {
    SplitStep(path);
    var i := FindSlash(path);
    if i < |path| && c !in path[..i] {
      assert s in Split(path[i + 1..]);
      SplitCharacters(path[i + 1..], s, c);
    }
  }

  /** Removal puts no character into a path that was not there, but a slash. */
  lemma RemovalAddsNothing(path: string, c: char)
    requires c in RemoveDotSegments(path) && c != '/'
    ensures c in path
  {
    var stack := SegmentsLeft(path);
    if c in stack.first {
      SplitCharacters(path, stack.first, c);
    } else {
      SlashedCharacters(stack.rest, c);
      var s :| s in stack.rest && c in s;
      SplitCharacters(path, s, c);
    }
  }

  // --- Paths that come to begin with two slashes ------------------------------------------------------------

  /** How many segments are held after some: `.` changes nothing, `..` takes one back if there is one, any other adds itself. */
  function Held(segs: seq<string>): nat {
    if segs == [] then 0 else
      var before := Held(segs[..|segs| - 1]);
      var last := segs[|segs| - 1];
      if last == "." then before else if last == ".." then (if before == 0 then 0 else before - 1) else before + 1
  }

  /** A dot segment at the end leaves an empty segment behind. */
  function HeldAtEnd(segs: seq<string>): nat {
    Held(segs) + if segs != [] && IsDot(segs[|segs| - 1]) then 1 else 0
  }

  /**
   The `..` segments use up everything before an empty segment, which is never taken back itself, and it
   is not the last that is held.
   */
  ghost predicate EmptyComesFirst(segs: seq<string>) {
    HeldAtEnd(segs) >= 2 && exists k | 0 <= k < |segs| :: segs[k] == "" && StaysFrom(segs, k)
  }

  /** The segment at `k` is put where nothing is held, and something is held from then on. */
  ghost predicate StaysFrom(segs: seq<string>, k: nat)
    requires k < |segs|
  {
    Held(segs[..k]) == 0 && forall j | k < j <= |segs| :: Held(segs[..j]) > 0
  }

  function Turned(stack: Stack, s: string): Stack {
    if s == "." then stack else if s == ".." then stack.Pop() else stack.Push(s)
  }

  /** The stack after some segments, before anything is made of a dot segment at the end. */
  function AfterAll(segs: seq<string>): Stack {
    if segs == [] then Stack("", []) else Turned(AfterAll(segs[..|segs| - 1]), segs[|segs| - 1])
  }

  lemma {:induction false} ProcessedFrom(segs: seq<string>, k: nat)
    requires k < |segs|
    ensures Processed(segs[k..], AfterAll(segs[..k]))
         == if IsDot(segs[|segs| - 1]) then AfterAll(segs).Push("") else AfterAll(segs)
    decreases |segs| - k
  {
    assert segs[..k + 1][..k] == segs[..k] && segs[k..][1..] == segs[k + 1..];
    if k + 1 < |segs| {
      ProcessedFrom(segs, k + 1);
    } else {
      assert segs[..k + 1] == segs && segs[k + 1..] == [];
    }
  }

  /** What is held, and what of it is at the bottom. */
  lemma {:induction false} HeldIs(segs: seq<string>)
    ensures AfterAll(segs).first == "" && |AfterAll(segs).rest| == Held(segs)
    ensures Held(segs) > 0 ==> exists k | 0 <= k < |segs| :: StaysFrom(segs, k) && AfterAll(segs).rest[0] == segs[k]
  {
    if segs != [] {
      var n := |segs| - 1;
      var before := segs[..n];
      HeldIs(before);
      assert segs[..|segs|] == segs;
      if Held(segs) > 0 {
        if Held(before) == 0 {
          assert StaysFrom(segs, n);
        } else {
          var k :| 0 <= k < |before| && StaysFrom(before, k) && AfterAll(before).rest[0] == before[k];
          assert before[..k] == segs[..k];
          assert forall j | k < j <= n :: before[..j] == segs[..j];
          assert StaysFrom(segs, k);
        }
      }
    }
  }

  lemma OnlyOneStays(segs: seq<string>, k: nat, m: nat)
    requires k < |segs| && m < |segs| && StaysFrom(segs, k) && StaysFrom(segs, m)
    ensures k == m
  {
  }

  lemma TextBegins(stack: Stack)
    requires AreFine(stack) && stack.first == ""
    ensures StartsWithSlashes(stack.Text()) <==> |stack.rest| >= 2 && stack.rest[0] == ""
  {
    if stack.rest != [] {
      var text := "/" + stack.rest[0] + Slashed(stack.rest[1..]);
      assert stack.Text() == text;
      TwoSlashes(text);
      assert stack.rest[0] in stack.rest;
      if stack.rest[0] == "" {
        assert text == "/" + Slashed(stack.rest[1..]);
      } else {
        assert text[1] == stack.rest[0][0] && text[1] in stack.rest[0];
      }
    }
  }

  predicate StartsWithSlashes(path: string) {
    StartsWith(path, "//")
  }

  lemma TwoSlashes(path: string)
    ensures StartsWithSlashes(path) <==> |path| >= 2 && path[0] == '/' && path[1] == '/'
  {
    if |path| >= 2 {
      assert path[..2] == [path[0], path[1]];
    }
  }

  /** Just then is the text of what is left a path that begins with two slashes. */
  lemma EmptyFirstExactly(segs: seq<string>)
    requires AreSegments(segs)
    ensures StartsWithSlashes(Resolved(segs)) <==> EmptyComesFirst(segs)
  {
    var stack := Processed(segs, Stack("", []));
    ProcessedComesFrom(segs, Stack("", []), segs);
    if segs == [] {
      assert stack.Text() == "";
    } else {
      ProcessedFrom(segs, 0);
      assert segs[0..] == segs && segs[..0] == [];
      HeldIs(segs);
      assert stack.first == "" && |stack.rest| == HeldAtEnd(segs);
      assert AreFine(stack) by {
        forall s | s in stack.rest ensures IsSegment(s) {
        }
      }
      TextBegins(stack);
      if Held(segs) > 0 {
        var k :| 0 <= k < |segs| && StaysFrom(segs, k) && AfterAll(segs).rest[0] == segs[k];
        assert stack.rest[0] == segs[k];
        if EmptyComesFirst(segs) {
          var m :| 0 <= m < |segs| && segs[m] == "" && StaysFrom(segs, m);
          OnlyOneStays(segs, k, m);
        }
      } else {
        assert segs[..|segs|] == segs;
      }
    }
  }

  /** The segments below the root, or all of them for a path that begins elsewhere; dot segments it begins with do not count. */
  function Counted(segs: seq<string>): seq<string> {
    if segs == [] then [] else if segs[0] == "" then segs[1..] else if IsDot(segs[0]) then Counted(segs[1..]) else segs
  }

  /** A first segment of its own is like one below the root, until it is taken back. */
  lemma {:induction false} FirstOrBelow(segs: seq<string>, first: string, rest: seq<string>)
    requires first != "" && AreSegments([first] + rest) && AreSegments(segs)
    ensures StartsWithSlashes(Processed(segs, Stack(first, rest)).Text())
       <==> StartsWithSlashes(Processed(segs, Stack("", [first] + rest)).Text())
    decreases |segs|
  {
    var own, below := Stack(first, rest), Stack("", [first] + rest);
    if segs == [] {
      NotTwoSlashes(first, rest);
    } else {
      var s := segs[0];
      assert s in segs;
      if s == ".." && rest == [] {
        assert own.Pop() == below.Pop() == Stack("", []);
      } else {
        var rest' := if s == "." then rest else if s == ".." then rest[..|rest| - 1] else rest + [s];
        assert Turned(own, s) == Stack(first, rest');
        assert Turned(below, s) == Stack("", [first] + rest') by {
          assert [first] + rest + [s] == [first] + (rest + [s]);
          assert rest != [] ==> ([first] + rest)[..|rest|] == [first] + rest[..|rest| - 1];
        }
        assert AreSegments([first] + rest') by {
          forall x | x in [first] + rest' ensures IsSegment(x) {
            assert x in [first] + rest || x == s;
          }
        }
        if |segs| == 1 && IsDot(s) {
          assert [first] + rest' + [""] == [first] + (rest' + [""]);
          NotTwoSlashes(first, rest' + [""]);
        } else {
          FirstOrBelow(segs[1..], first, rest');
        }
      }
    }
  }

  lemma NotTwoSlashes(first: string, rest: seq<string>)
    requires first != "" && IsSegment(first)
    ensures !StartsWithSlashes(Stack(first, rest).Text()) && !StartsWithSlashes(Stack("", [first] + rest).Text())
  {
    var text := Stack(first, rest).Text();
    TwoSlashes(text);
    TwoSlashes("/" + text);
    assert text[0] == first[0] && first[0] in first;
    assert ([first] + rest)[1..] == rest;
    assert Stack("", [first] + rest).Text() == "/" + text;
  }

  lemma {:induction false} CountedExactly(segs: seq<string>)
    requires segs != [] && AreSegments(segs)
    ensures AreSegments(Counted(segs))
    ensures StartsWithSlashes(ProcessedAll(segs).Text()) <==> EmptyComesFirst(Counted(segs))
    decreases |segs|
  {
    assert segs[0] in segs && AreSegments(segs[1..]);
    if segs[0] == "" {
      EmptyFirstExactly(segs[1..]);
    } else if !IsDot(segs[0]) {
      FirstOrBelow(segs[1..], segs[0], []);
      EmptyFirstExactly(segs);
      assert Stack("", []).Push(segs[0]) == Stack("", [segs[0]] + []);
      if |segs| == 1 {
        assert segs[1..] == [];
      }
    } else if |segs| > 1 {
      CountedExactly(segs[1..]);
    } else {
      assert Counted(segs) == [] && Stack("", []).Text() == "";
    }
  }

  /** Removing dot segments leaves a path that begins with two slashes just when an empty segment comes first among those that stay. */
  lemma RemovalLeavesSlashes(path: string)
    ensures StartsWithSlashes(RemoveDotSegments(path)) <==> EmptyComesFirst(Counted(Split(path)))
  {
    RemovesBySegments(path);
    SplitGlued(path);
    CountedExactly(Split(path));
  }
}
