/**
 URI references as text and as components, by RFC 3986: parsing, printing, and building from
 components.
 */
module Uris {
  import opened Wrappers
  import opened Strings

  datatype Uri = Uri(
    scheme: Option<string>,
    authority: Option<string>,
    path: string,
    query: Option<string>,
    fragment: Option<string>)

  // --- Characters -----------------------------------------------------------------------------------------

  predicate IsAlpha(c: char) {
    'a' <= c <= 'z' || 'A' <= c <= 'Z'
  }

  predicate IsAlphanumeric(c: char) {
    IsAlpha(c) || '0' <= c <= '9'
  }

  /** `unreserved`, `reserved` or `%`. */
  predicate IsUriChar(c: char) {
    IsAlphanumeric(c) || c in "-._~:/?#[]@!$&'()*+,;=%"
  }

  predicate AreUriChars(s: string) {
    forall c | c in s :: IsUriChar(c)
  }

  predicate IsScheme(s: string) {
    s != "" && IsAlpha(s[0]) && forall c | c in s[1..] :: IsAlphanumeric(c) || c == '+' || c == '-' || c == '.'
  }

  function Lower(c: char): char {
    if 'A' <= c <= 'Z' then c - 'A' + 'a' else c
  }

  function Lowered(s: string): (r: string)
    ensures |r| == |s| && forall i | 0 <= i < |s| :: r[i] == Lower(s[i])
  {
    seq(|s|, i requires 0 <= i < |s| => Lower(s[i]))
  }

  // --- Text and components ----------------------------------------------------------------------------------

  function SplitOnceAt(s: string, delimiter: char): (string, Option<string>) {
    match Find(s, delimiter)
    case Some(i) => (s[..i], Some(s[i + 1..]))
    case None => (s, None)
  }

  /** A scheme is there only if the first colon is preceded by one. */
  function SplitScheme(s: string): (Option<string>, string) {
    match Find(s, ':')
    case Some(i) => if IsScheme(s[..i]) then (Some(Lowered(s[..i])), s[i + 1..]) else (None, s)
    case None => (None, s)
  }

  function SplitAuthority(s: string): (Option<string>, string) {
    if StartsWith(s, "//") then
      var after := s[2..];
      match Find(after, '/')
      case Some(end) => (Some(after[..end]), after[end..])
      case None => (Some(after), "")
    else
      (None, s)
  }

  function Parse(s: string): Result<Uri> {
    if !AreUriChars(s) then
      Err
    else
      var (beforeFragment, fragment) := SplitOnceAt(s, '#');
      var (beforeQuery, query) := SplitOnceAt(beforeFragment, '?');
      var (scheme, rest) := SplitScheme(beforeQuery);
      var (authority, path) := SplitAuthority(rest);
      if scheme.None? && authority.None? && StartsWith(path, "//") then Err
      else Ok(Uri(scheme, authority, path, query, fragment))
  }

  function PrintScheme(scheme: Option<string>): string {
    if scheme.Some? then scheme.value + ":" else ""
  }

  function PrintAuthority(authority: Option<string>): string {
    if authority.Some? then "//" + authority.value else ""
  }

  function PrintAfter(delimiter: char, part: Option<string>): string {
    if part.Some? then [delimiter] + part.value else ""
  }

  function Print(u: Uri): string {
    PrintScheme(u.scheme) + (PrintAuthority(u.authority) + u.path) + PrintAfter('?', u.query) + PrintAfter('#', u.fragment)
  }

  /** Builds a reference from components: valid exactly when its text parses back to them. */
  function New(scheme: Option<string>, authority: Option<string>, path: string, query: Option<string>,
               fragment: Option<string>): Result<Uri> {
    var candidate := Candidate(scheme, authority, path, query, fragment);
    if Parse(Print(candidate)) == Ok(candidate) then Ok(candidate) else Err
  }

  function Candidate(scheme: Option<string>, authority: Option<string>, path: string, query: Option<string>,
                     fragment: Option<string>): Uri {
    Uri(if scheme.Some? then Some(Lowered(scheme.value)) else None, authority, path, query, fragment)
  }

  // --- Components that go together ----------------------------------------------------------------------------

  predicate PartIs(part: Option<string>, without: string) {
    part.Some? ==> AreUriChars(part.value) && forall c | c in part.value :: c !in without
  }

  predicate IsLowered(s: string) {
    forall c | c in s :: !('A' <= c <= 'Z')
  }

  /** Text that would be read as beginning with a scheme. */
  predicate LooksSchemed(path: string) {
    Find(path, ':').Some? && IsScheme(path[..Find(path, ':').value])
  }

  /**
   The components of a URI reference: each of the characters it may hold and without the delimiters of
   those after it, and a path that is not taken for an authority or a scheme.
   */
  predicate Composes(u: Uri) {
    && (u.scheme.Some? ==> IsScheme(u.scheme.value) && IsLowered(u.scheme.value))
    && PartIs(u.authority, "/?#") && PartIs(Some(u.path), "?#") && PartIs(u.query, "#") && PartIs(u.fragment, "")
    && PartsMeet(u)
  }

  predicate PartsMeet(u: Uri) {
    && (if u.authority.Some? then u.path == "" || u.path[0] == '/' else !StartsWith(u.path, "//"))
    && (u.scheme.None? && u.authority.None? ==> !LooksSchemed(u.path))
  }

  lemma SplitOnceAtIs(before: string, delimiter: char, part: Option<string>)
    requires delimiter !in before
    ensures SplitOnceAt(before + PrintAfter(delimiter, part), delimiter) == (before, part)
  {
    var s := before + PrintAfter(delimiter, part);
    if part.Some? {
      FindIs(before, delimiter, part.value);
      assert s == before + ([delimiter] + part.value);
      assert s[..|before|] == before && s[|before| + 1..] == part.value;
    } else {
      FindIs(before, delimiter, "");
      assert s == before;
    }
  }

  lemma SplitOnceAtGives(s: string, delimiter: char)
    ensures var (before, part) := SplitOnceAt(s, delimiter);
            delimiter !in before && s == before + PrintAfter(delimiter, part)
  {
    var (before, part) := SplitOnceAt(s, delimiter);
    match Find(s, delimiter)
    case Some(i) => assert s == s[..i] + ([delimiter] + s[i + 1..]);
    case None => assert s == before + "";
  }

  lemma SchemeHasNoColon(s: string)
    requires IsScheme(s)
    ensures ':' !in s && '/' !in s && '?' !in s && '#' !in s && AreUriChars(s)
  {
    forall c | c in s ensures c != ':' && c != '/' && c != '?' && c != '#' && IsUriChar(c) {
      assert c == s[0] || c in s[1..];
    }
  }

  lemma LoweredIsLowered(s: string)
    ensures IsLowered(Lowered(s)) && (IsLowered(s) ==> Lowered(s) == s) && (IsScheme(s) ==> IsScheme(Lowered(s)))
  {
    if IsLowered(s) {
      assert forall i | 0 <= i < |s| :: s[i] in s;
    }
    if IsScheme(s) {
      forall c | c in Lowered(s)[1..] ensures IsAlphanumeric(c) || c == '+' || c == '-' || c == '.' {
        var i :| 0 <= i < |s| - 1 && Lowered(s)[1..][i] == c;
        assert s[i + 1] in s[1..];
      }
    }
  }

  lemma SplitSchemeIs(scheme: Option<string>, rest: string)
    requires scheme.Some? ==> IsScheme(scheme.value) && IsLowered(scheme.value)
    requires scheme.None? ==> !LooksSchemed(rest)
    ensures SplitScheme(PrintScheme(scheme) + rest) == (scheme, rest)
  {
    var s := PrintScheme(scheme) + rest;
    if scheme.Some? {
      SchemeHasNoColon(scheme.value);
      LoweredIsLowered(scheme.value);
      hide IsScheme, IsLowered, AreUriChars, LooksSchemed;
      FindIs(scheme.value, ':', rest);
      AroundColon(scheme.value, rest);
    } else {
      assert s == rest;
    }
  }

  lemma AroundColon(before: string, after: string)
    ensures var s := before + ":" + after;
            s == before + ([':'] + after) && s[..|before|] == before && s[|before| + 1..] == after
  {
  }

  lemma SplitAuthorityIs(authority: Option<string>, path: string)
    requires authority.Some? ==> '/' !in authority.value && (path == "" || path[0] == '/')
    requires authority.None? ==> !StartsWith(path, "//")
    ensures SplitAuthority(PrintAuthority(authority) + path) == (authority, path)
  {
    var s := PrintAuthority(authority) + path;
    if authority.Some? {
      var after := authority.value + path;
      assert s == "//" + after;
      assert s[..2] == "//" && s[2..] == after;
      if path == "" {
        assert after == authority.value;
      } else {
        FindIs(authority.value, '/', path[1..]);
        assert path == ['/'] + path[1..];
        assert after[..|authority.value|] == authority.value && after[|authority.value|..] == path;
      }
    } else {
      assert s == path;
    }
  }

  /** An authority is not taken for a scheme. */
  lemma AuthorityLooksNoScheme(authority: string, path: string)
    ensures !LooksSchemed("//" + authority + path)
  {
    var s := "//" + authority + path;
    if Find(s, ':').Some? {
      var i := Find(s, ':').value;
      if i > 0 {
        assert s[..i][0] == s[0] == '/';
      }
    }
  }

  // --- Text and components undo each other ----------------------------------------------------------------------

  predicate HasNone(s: string, delimiters: string) {
    AreUriChars(s) && forall c | c in s :: c !in delimiters
  }

  lemma BothHaveNone(a: string, b: string, delimiters: string)
    requires HasNone(a, delimiters) && HasNone(b, delimiters)
    ensures HasNone(a + b, delimiters)
  {
  }

  /** The part of a printed reference before its query. */
  function Front(u: Uri): string {
    PrintScheme(u.scheme) + (PrintAuthority(u.authority) + u.path)
  }

  lemma FrontCharacters(u: Uri)
    requires Composes(u)
    ensures HasNone(Front(u), "?#")
  {
    assert HasNone(PrintScheme(u.scheme), "?#") by {
      if u.scheme.Some? {
        SchemeHasNoColon(u.scheme.value);
        assert HasNone(":", "?#");
        BothHaveNone(u.scheme.value, ":", "?#");
      }
    }
    assert HasNone(PrintAuthority(u.authority), "?#") by {
      if u.authority.Some? {
        assert HasNone("//", "?#");
        BothHaveNone("//", u.authority.value, "?#");
      }
    }
    BothHaveNone(PrintAuthority(u.authority), u.path, "?#");
    BothHaveNone(PrintScheme(u.scheme), PrintAuthority(u.authority) + u.path, "?#");
  }

  lemma QueryCharacters(delimiter: char, part: Option<string>, without: string)
    requires PartIs(part, without) && IsUriChar(delimiter) && delimiter !in without
    ensures HasNone(PrintAfter(delimiter, part), without)
  {
    if part.Some? {
      assert HasNone([delimiter], without);
      BothHaveNone([delimiter], part.value, without);
    }
  }

  /** What comes before the query is read as it was printed. */
  lemma FrontIsRead(u: Uri)
    requires Composes(u)
    ensures SplitScheme(Front(u)) == (u.scheme, PrintAuthority(u.authority) + u.path)
    ensures SplitAuthority(PrintAuthority(u.authority) + u.path) == (u.authority, u.path)
  {
    if u.authority.Some? {
      AuthorityLooksNoScheme(u.authority.value, u.path);
      assert PrintAuthority(u.authority) + u.path == "//" + u.authority.value + u.path;
    } else {
      assert PrintAuthority(u.authority) + u.path == u.path;
    }
    hide LooksSchemed;
    SplitAuthorityIs(u.authority, u.path);
    SplitSchemeIs(u.scheme, PrintAuthority(u.authority) + u.path);
  }

  /** Components that go together are read back from their text. */
  lemma PrintedIsParsed(u: Uri)
    requires Composes(u)
    ensures Parse(Print(u)) == Ok(u)
  {
    FrontCharacters(u);
    FrontIsRead(u);
    assert IsUriChar('?') && IsUriChar('#');
    QueryCharacters('?', u.query, "#");
    QueryCharacters('#', u.fragment, "");
    hide IsUriChar, SplitScheme, SplitAuthority, SplitOnceAt, Front, PrintAfter, AreUriChars;
    var front, query, fragment := Front(u), PrintAfter('?', u.query), PrintAfter('#', u.fragment);
    assert HasNone(front, "#") && HasNone(front, "");
    BothHaveNone(front, query, "#");
    assert HasNone(query, "");
    BothHaveNone(front, query, "");
    BothHaveNone(front + query, fragment, "");
    assert Print(u) == front + query + fragment by {
      FrontIs(u);
    }
    SplitOnceAtIs(front + query, '#', u.fragment);
    SplitOnceAtIs(front, '?', u.query);
    assert !(u.scheme.None? && u.authority.None? && StartsWith(u.path, "//"));
  }

  /** Written out: what each delimiter begins, where all of them are there and where there is only a path. */
  lemma DelimitersBegin(scheme: string, authority: string, path: string, query: string, fragment: string)
    requires Composes(Uri(Some(scheme), Some(authority), path, Some(query), Some(fragment)))
    ensures Parse((scheme + ":") + ("//" + authority + path) + ("?" + query) + ("#" + fragment))
         == Ok(Uri(Some(scheme), Some(authority), path, Some(query), Some(fragment)))
    ensures Composes(Uri(None, None, path, None, None)) ==> Parse(path) == Ok(Uri(None, None, path, None, None))
  {
    var whole, alone := Uri(Some(scheme), Some(authority), path, Some(query), Some(fragment)), Uri(None, None, path, None, None);
    PrintedIsParsed(whole);
    if Composes(alone) {
      PrintedIsParsed(alone);
    }
    hide Parse, Composes;
    assert Print(whole) == (scheme + ":") + ("//" + authority + path) + ("?" + query) + ("#" + fragment);
    assert Print(alone) == path;
  }

  lemma FrontIs(u: Uri)
    ensures Print(u) == Front(u) + PrintAfter('?', u.query) + PrintAfter('#', u.fragment)
  {
  }

  // --- What is parsed composes --------------------------------------------------------------------------------

  /** A reference's text with its scheme, if it has one, in lower case. */
  function WithLowerScheme(s: string): string {
    var (beforeFragment, _) := SplitOnceAt(s, '#');
    var (beforeQuery, _) := SplitOnceAt(beforeFragment, '?');
    match SplitScheme(beforeQuery).0
    case Some(scheme) => scheme + s[|scheme|..]
    case None => s
  }

  lemma SplitSchemeGives(s: string)
    ensures var (scheme, rest) := SplitScheme(s);
            && (scheme.Some? ==> IsScheme(scheme.value) && IsLowered(scheme.value)
                                 && |scheme.value| < |s| && s[|scheme.value|..] == ":" + rest)
            && (scheme.None? ==> rest == s && !LooksSchemed(s))
  {
    match Find(s, ':')
    case Some(i) =>
      LoweredIsLowered(s[..i]);
      assert s[i..] == ":" + s[i + 1..];
    case None =>
  }

  lemma SplitAuthorityGives(s: string)
    ensures var (authority, path) := SplitAuthority(s);
            && s == PrintAuthority(authority) + path
            && (authority.Some? ==> '/' !in authority.value && (path == "" || path[0] == '/'))
            && (authority.None? ==> path == s && !StartsWith(path, "//"))
  {
    if StartsWith(s, "//") {
      var after := s[2..];
      match Find(after, '/')
      case Some(end) => AfterSlashes(s, end);
      case None => AfterSlashes(s, |after|);
    } else {
      assert s == "" + s;
    }
  }

  lemma AfterSlashes(s: string, end: nat)
    requires StartsWith(s, "//") && end <= |s| - 2
    ensures s == "//" + s[2..][..end] + s[2..][end..] && s[2..][..|s| - 2] == s[2..]
  {
    assert s == "//" + s[2..];
    assert s[2..] == s[2..][..end] + s[2..][end..];
  }

  lemma PartsOf(s: string, a: string, b: string)
    requires s == a + b
    ensures AreUriChars(s) ==> AreUriChars(a) && AreUriChars(b)
    ensures forall c | c !in s :: c !in a && c !in b
  {
    assert forall c | c in a :: c in s;
    assert forall c | c in b :: c in s;
  }

  /** What is read from a text composes, and prints as the text with only its scheme lower-cased. */
  lemma ParsedComposes(s: string)
    requires Parse(s).Ok?
    ensures Composes(Parse(s).value) && Print(Parse(s).value) == WithLowerScheme(s)
  {
    var u := Parse(s).value;
    var (beforeFragment, fragment) := SplitOnceAt(s, '#');
    var (beforeQuery, query) := SplitOnceAt(beforeFragment, '?');
    var (scheme, rest) := SplitScheme(beforeQuery);
    var (authority, path) := SplitAuthority(rest);
    SplitOnceAtGives(s, '#');
    SplitOnceAtGives(beforeFragment, '?');
    SplitSchemeGives(beforeQuery);
    SplitAuthorityGives(rest);
    ParsedParts(s, beforeFragment, beforeQuery, u, rest);
    ParsedPrints(s, beforeFragment, beforeQuery, u, rest);
  }

  lemma ParsedParts(s: string, beforeFragment: string, beforeQuery: string, u: Uri, rest: string)
    requires AreUriChars(s) && s == beforeFragment + PrintAfter('#', u.fragment) && '#' !in beforeFragment
    requires beforeFragment == beforeQuery + PrintAfter('?', u.query) && '?' !in beforeQuery
    requires if u.scheme.Some? then |u.scheme.value| < |beforeQuery| && beforeQuery[|u.scheme.value|..] == ":" + rest else beforeQuery == rest
    requires rest == PrintAuthority(u.authority) + u.path && (u.authority.Some? ==> '/' !in u.authority.value)
    ensures PartIs(u.authority, "/?#") && PartIs(Some(u.path), "?#") && PartIs(u.query, "#") && PartIs(u.fragment, "")
  {
    hide IsUriChar;
    PartsOf(s, beforeFragment, PrintAfter('#', u.fragment));
    PartsOf(beforeFragment, beforeQuery, PrintAfter('?', u.query));
    if u.fragment.Some? {
      PartsOf(PrintAfter('#', u.fragment), "#", u.fragment.value);
    }
    if u.query.Some? {
      PartsOf(PrintAfter('?', u.query), "?", u.query.value);
    }
    if u.scheme.Some? {
      PartsOf(beforeQuery, beforeQuery[..|u.scheme.value|], beforeQuery[|u.scheme.value|..]);
      PartsOf(":" + rest, ":", rest);
    }
    PartsOf(rest, PrintAuthority(u.authority), u.path);
    if u.authority.Some? {
      PartsOf(PrintAuthority(u.authority), "//", u.authority.value);
    }
  }

  lemma ParsedPrints(s: string, beforeFragment: string, beforeQuery: string, u: Uri, rest: string)
    requires s == beforeFragment + PrintAfter('#', u.fragment) && beforeFragment == beforeQuery + PrintAfter('?', u.query)
    requires if u.scheme.Some? then |u.scheme.value| < |beforeQuery| && beforeQuery[|u.scheme.value|..] == ":" + rest else beforeQuery == rest
    requires rest == PrintAuthority(u.authority) + u.path
    ensures Print(u) == if u.scheme.Some? then u.scheme.value + s[|u.scheme.value|..] else s
  {
    hide PrintAfter, PrintAuthority;
    var tail := PrintAfter('?', u.query) + PrintAfter('#', u.fragment);
    assert s == beforeQuery + tail;
    if u.scheme.Some? {
      var n := |u.scheme.value|;
      assert s[n..] == beforeQuery[n..] + tail;
      assert Print(u) == u.scheme.value + (":" + rest) + tail;
    } else {
      assert "" + rest == rest;
      assert Print(u) == rest + tail;
    }
  }

  /** Printing what was parsed, and parsing that again. */
  lemma ParsePrintParse(s: string)
    requires Parse(s).Ok?
    ensures Parse(Print(Parse(s).value)) == Parse(s)
  {
    ParsedComposes(s);
    PrintedIsParsed(Parse(s).value);
  }

  /** Text gives components back exactly when they go together. */
  lemma ReadsBackExactly(u: Uri)
    ensures Parse(Print(u)) == Ok(u) <==> Composes(u)
  {
    if Composes(u) {
      PrintedIsParsed(u);
    }
    if Parse(Print(u)) == Ok(u) {
      ParsedComposes(Print(u));
    }
  }

  /** `New` accepts exactly components that go together, and gives them back with the scheme in lower case. */
  lemma NewAccepts(scheme: Option<string>, authority: Option<string>, path: string, query: Option<string>, fragment: Option<string>)
    ensures var candidate := Candidate(scheme, authority, path, query, fragment);
            New(scheme, authority, path, query, fragment) == if Composes(candidate) then Ok(candidate) else Err
  {
    hide Parse, Print, Composes;
    ReadsBackExactly(Candidate(scheme, authority, path, query, fragment));
  }
}
