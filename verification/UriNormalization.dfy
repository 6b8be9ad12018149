/**
 The normal form of a URI reference (section 6.2 of RFC 3986): percent-encoding, dot segments, and what
 is known about some schemes.
 */
module UriNormalization {
  import opened Wrappers
  import opened Strings
  import opened UriPaths
  import opened Uris
  import opened UriResolution

  // --- Percent-encoding ---------------------------------------------------------------------------------------

  function HexDigit(c: char): (r: Option<nat>)
    ensures r.Some? ==> r.value < 16
  {
    if '0' <= c <= '9' then Some((c - '0') as nat)
    else if 'a' <= c <= 'f' then Some((c - 'a') as nat + 10)
    else if 'A' <= c <= 'F' then Some((c - 'A') as nat + 10)
    else None
  }

  const HEX := "0123456789ABCDEF"

  predicate IsUnreserved(octet: nat) {
    octet < 128 && (IsAlphanumeric(octet as char) || octet as char in "-._~")
  }

  /** A percent sign and two hex digits. */
  predicate IsEncoded(s: string) {
    |s| >= 3 && s[0] == '%' && HexDigit(s[1]).Some? && HexDigit(s[2]).Some?
  }

  function Octet(s: string): (octet: nat)
    requires IsEncoded(s)
    ensures octet < 256
  {
    HexDigit(s[1]).value * 16 + HexDigit(s[2]).value
  }

  /** An octet as it is written: as the character it stands for if that is unreserved, or else encoded. */
  function Written(octet: nat): string
    requires octet < 256
  {
    if IsUnreserved(octet) then [octet as char] else ['%', HEX[octet / 16], HEX[octet % 16]]
  }

  function Normal(s: string): string {
    if s == "" then ""
    else if IsEncoded(s) then Written(Octet(s)) + Normal(s[3..])
    else [s[0]] + Normal(s[1..])
  }

  method NormalizePercent(s: string) returns (out: string)
    ensures out == Normal(s)
  {
    var at := 0;
    out := "";
    while at < |s|
      invariant at <= |s| && out + Normal(s[at..]) == Normal(s)
    {
      var rest := s[at..];
      if IsEncoded(rest) {
        var octet := Octet(rest);
        AppendNormal(out, Written(octet), Normal(rest[3..]));
        out := out + Written(octet);
        at := at + 3;
        assert rest[3..] == s[at..];
      } else {
        AppendNormal(out, [s[at]], Normal(rest[1..]));
        out := out + [s[at]];
        at := at + 1;
        assert rest[1..] == s[at..];
      }
    }
  }

  lemma AppendNormal(a: string, b: string, c: string)
    ensures a + (b + c) == a + b + c
  {
  }

  /** Every percent sign begins an encoded octet. */
  predicate IsWellFormed(s: string) {
    s != "" ==> if s[0] == '%' then IsEncoded(s) && IsWellFormed(s[3..]) else IsWellFormed(s[1..])
  }

  /** The octets a text stands for. */
  function Octets(s: string): seq<nat> {
    if s == "" then []
    else if IsEncoded(s) then [Octet(s)] + Octets(s[3..])
    else [s[0] as nat] + Octets(s[1..])
  }

  lemma WrittenIs(octet: nat, rest: string)
    requires octet < 256
    ensures var w := Written(octet);
            if IsUnreserved(octet) then w == [octet as char] && octet as char != '%' && !IsEncoded(w + rest)
            else |w| == 3 && IsEncoded(w + rest) && Octet(w + rest) == octet
  {
    var w := Written(octet);
    if !IsUnreserved(octet) {
      assert (w + rest)[0] == w[0] && (w + rest)[1] == w[1] && (w + rest)[2] == w[2];
      HexIs(octet / 16);
      HexIs(octet % 16);
    }
  }

  lemma HexIs(n: nat)
    requires n < 16
    ensures HexDigit(HEX[n]) == Some(n)
  {
    assert HEX[0] == '0' && HEX[1] == '1' && HEX[2] == '2' && HEX[3] == '3' && HEX[4] == '4' && HEX[5] == '5' && HEX[6] == '6';
    assert HEX[7] == '7' && HEX[8] == '8' && HEX[9] == '9' && HEX[10] == 'A' && HEX[11] == 'B' && HEX[12] == 'C';
    assert HEX[13] == 'D' && HEX[14] == 'E' && HEX[15] == 'F';
  }

  /** A text that has its normal form already. */
  predicate IsNormal(s: string) {
    IsWellFormed(s) && Normal(s) == s
  }

  /** What is written for an octet is read as that octet, and is its own normal form. */
  lemma WrittenReads(octet: nat, rest: string)
    requires octet < 256
    ensures Octets(Written(octet) + rest) == [octet] + Octets(rest)
    ensures Normal(Written(octet) + rest) == Written(octet) + Normal(rest)
    ensures IsWellFormed(Written(octet) + rest) <==> IsWellFormed(rest)
  {
    WrittenIs(octet, rest);
    var s := Written(octet) + rest;
    if IsUnreserved(octet) {
      assert s[0] == octet as char && s[1..] == rest;
    } else {
      assert s[3..] == rest;
    }
  }

  /** On well-formed text, the octets stay and the normal form is one. */
  lemma {:induction false} NormalKeepsOctets(s: string)
    requires IsWellFormed(s)
    ensures Octets(Normal(s)) == Octets(s) && IsNormal(Normal(s))
    decreases |s|
  {
    if s != "" {
      if s[0] == '%' {
        NormalKeepsOctets(s[3..]);
        WrittenReads(Octet(s), Normal(s[3..]));
      } else {
        NormalKeepsOctets(s[1..]);
        PlainReads(s[0], Normal(s[1..]));
      }
    }
  }

  lemma PlainReads(c: char, rest: string)
    requires c != '%'
    ensures Octets([c] + rest) == [c as nat] + Octets(rest) && Normal([c] + rest) == [c] + Normal(rest)
    ensures IsWellFormed([c] + rest) <==> IsWellFormed(rest)
  {
    assert ([c] + rest)[0] == c && ([c] + rest)[1..] == rest;
  }

  /**
   Normalizing completes no stray percent sign: where one begins no encoded octet, what follows it in the
   normal form gives it no two hex digits, or only two that are written as they stand.
   */
  predicate NoStrayCompletes(s: string)
    decreases |s|
  {
    s != "" ==>
      if IsEncoded(s) then NoStrayCompletes(s[3..])
      else NoStrayCompletes(s[1..]) && (s[0] == '%' ==> IsSettled("%" + Normal(s[1..])))
  }

  predicate IsSettled(s: string) {
    IsEncoded(s) ==> Written(Octet(s)) == s[..3]
  }

  /** On any text, normalizing twice is normalizing once exactly then. */
  lemma {:induction false} NormalTwiceExactly(s: string)
    ensures Normal(Normal(s)) == Normal(s) <==> NoStrayCompletes(s)
    decreases |s|
  {
    if s != "" {
      if IsEncoded(s) {
        NormalTwiceExactly(s[3..]);
        WrittenReads(Octet(s), Normal(s[3..]));
        SamePrefix(Written(Octet(s)), Normal(Normal(s[3..])), Normal(s[3..]));
      } else {
        var rest := Normal(s[1..]);
        NormalTwiceExactly(s[1..]);
        if s[0] != '%' {
          PlainReads(s[0], rest);
          SamePrefix([s[0]], Normal(rest), rest);
        } else {
          StrayTwice(rest);
        }
      }
    }
  }

  lemma SamePrefix(a: string, b: string, c: string)
    ensures a + b == a + c <==> b == c
  {
    assert (a + b)[|a|..] == b && (a + c)[|a|..] == c;
  }

  lemma PlainStays(c: char, rest: string)
    requires c != '%'
    ensures Normal([c] + rest) == [c] + rest <==> Normal(rest) == rest
  {
    PlainReads(c, rest);
    hide *;
    SamePrefix([c], Normal(rest), rest);
  }

  lemma TwoDigitsStay(rest: string)
    requires |rest| >= 2 && rest[0] != '%' && rest[1] != '%'
    ensures Normal(rest) == rest <==> Normal(rest[2..]) == rest[2..]
  {
    hide *;
    PlainStays(rest[0], rest[1..]);
    PlainStays(rest[1], rest[2..]);
    assert rest == [rest[0]] + rest[1..];
    assert rest[1..] == [rest[1]] + rest[2..];
  }

  /** A percent sign before text: the two stay as they are when the text does and makes no other octet of it. */
  lemma StrayTwice(rest: string)
    ensures Normal("%" + rest) == "%" + rest <==> Normal(rest) == rest && IsSettled("%" + rest)
  {
    var s := "%" + rest;
    assert s[1..] == rest;
    if IsEncoded(s) {
      var more, w := rest[2..], Written(Octet(s));
      assert s[3..] == more && s == s[..3] + more;
      TwoDigitsStay(rest);
      NormalIsNoLonger(more);
      WrittenIs(Octet(s), "");
      assert Normal(s) == w + Normal(more);
      hide *;
      if Normal(s) == s {
        assert |w| + |Normal(more)| == 3 + |more|;
        assert (w + Normal(more))[..3] == w && s[..3] == w && (w + Normal(more))[3..] == Normal(more);
      }
    } else {
      assert Normal(s) == "%" + Normal(rest);
      SamePrefix("%", Normal(rest), rest);
    }
  }

  /** It does happen otherwise: `%%341` becomes `%41`, and that becomes `A`. */
  lemma NormalTwiceMayDiffer()
    ensures Normal("%%341") == "%41" && Normal("%41") == "A" && !NoStrayCompletes("%%341")
  {
    var s := "%%341";
    assert !IsEncoded(s) && s[1..] == "%341";
    assert IsEncoded("%341") && Octet("%341") == 0x34 && Written(0x34) == "4" && "%341"[3..] == "1";
    assert Normal("1") == "1" by {
      assert "1"[1..] == "";
    }
    assert Normal("%341") == "4" + "1" == "41";
    assert Normal(s) == "%" + "41" == "%41";
    assert IsEncoded("%41") && Octet("%41") == 0x41 && Written(0x41) == "A" && "%41"[3..] == "";
    assert Normal("%41") == "A" + "" == "A";
    NormalTwiceExactly(s);
  }

  // --- Normal text in segments --------------------------------------------------------------------------------

  lemma EncodedFirst(a: string, b: string)
    requires IsEncoded(a)
    ensures IsEncoded(a + b) && Octet(a + b) == Octet(a) && (a + b)[3..] == a[3..] + b
    ensures Normal(a + b) == Written(Octet(a)) + Normal(a[3..] + b) && Normal(a) == Written(Octet(a)) + Normal(a[3..])
    ensures IsWellFormed(a + b) <==> IsWellFormed(a[3..] + b)
  {
    var s := a + b;
    assert s[0] == a[0] && s[1] == a[1] && s[2] == a[2] && s[3..] == a[3..] + b;
  }

  lemma PlainFirst(a: string, b: string)
    requires a != "" && a[0] != '%'
    ensures Normal(a + b) == [a[0]] + Normal(a[1..] + b) && Normal(a) == [a[0]] + Normal(a[1..])
    ensures IsWellFormed(a + b) <==> IsWellFormed(a[1..] + b)
  {
    PlainReads(a[0], a[1..]);
    PlainReads(a[0], a[1..] + b);
    assert [a[0]] + a[1..] == a && [a[0]] + (a[1..] + b) == a + b;
  }

  lemma {:induction false} NormalBoth(a: string, b: string)
    requires IsWellFormed(a)
    ensures Normal(a + b) == Normal(a) + Normal(b) && (IsWellFormed(a + b) <==> IsWellFormed(b))
    decreases |a|
  {
    if a == "" {
      assert a + b == b && "" + Normal(b) == Normal(b);
    } else if a[0] == '%' {
      EncodedFirst(a, b);
      NormalBoth(a[3..], b);
      hide *;
      AppendNormal(Written(Octet(a)), Normal(a[3..]), Normal(b));
    } else {
      PlainFirst(a, b);
      NormalBoth(a[1..], b);
      hide *;
      AppendNormal([a[0]], Normal(a[1..]), Normal(b));
    }
  }

  /** An encoded octet does not reach across a slash. */
  lemma {:induction false} WellFormedParts(a: string, b: string)
    requires IsWellFormed(a + ("/" + b))
    ensures IsWellFormed(a) && IsWellFormed(b)
    decreases |a|
  {
    var s := a + ("/" + b);
    if a == "" {
      assert s[0] == '/' && s[1..] == b;
    } else if a[0] == '%' {
      assert s[|a|] == '/' && s[0] == a[0];
      assert HexDigit('/').None?;
      assert |a| >= 3;
      assert s[1] == a[1] && s[2] == a[2] && s[3..] == a[3..] + ("/" + b);
      WellFormedParts(a[3..], b);
    } else {
      assert s[0] == a[0] && s[1..] == a[1..] + ("/" + b);
      WellFormedParts(a[1..], b);
    }
  }

  /** No longer than it was. */
  lemma {:induction false} NormalIsNoLonger(s: string)
    ensures |Normal(s)| <= |s|
    decreases |s|
  {
    if s != "" {
      if IsEncoded(s) {
        NormalIsNoLonger(s[3..]);
      } else {
        NormalIsNoLonger(s[1..]);
      }
    }
  }

  lemma NormalParts(a: string, b: string)
    requires IsNormal(a + ("/" + b))
    ensures IsNormal(a) && IsNormal(b)
  {
    WellFormedParts(a, b);
    NormalBoth(a, "/" + b);
    PlainReads('/', b);
    NormalIsNoLonger(a);
    NormalIsNoLonger(b);
    var s := a + ("/" + b);
    assert Normal(s) == Normal(a) + ("/" + Normal(b));
    assert |Normal(a)| == |a|;
    assert s[..|a|] == a && Normal(s)[..|a|] == Normal(a);
    assert s[|a| + 1..] == b && Normal(s)[|a| + 1..] == Normal(b);
  }

  lemma NormalJoin(a: string, b: string)
    requires IsNormal(a) && IsNormal(b)
    ensures IsNormal(a + ("/" + b))
  {
    NormalBoth(a, "/" + b);
    PlainReads('/', b);
  }

  lemma {:induction false} NormalSegments(path: string, s: string)
    requires IsNormal(path) && s in Split(path)
    ensures IsNormal(s)
    decreases |path|
  {
    SplitStep(path);
    var i := FindSlash(path);
    if i < |path| {
      Cut(path, i);
      NormalParts(path[..i], path[i + 1..]);
      if s != path[..i] {
        NormalSegments(path[i + 1..], s);
      }
    }
  }

  lemma {:induction false} NormalGlued(segs: seq<string>)
    requires segs != [] && forall s | s in segs :: IsNormal(s)
    ensures IsNormal(Glued(segs))
    decreases |segs|
  {
    assert segs[0] in segs;
    if |segs| == 1 {
      assert segs == [segs[0]];
      GluedOne(segs[0]);
    } else {
      NormalGlued(segs[1..]);
      GluedMore(segs[0], segs[1..]);
      assert [segs[0]] + segs[1..] == segs;
      NormalJoin(segs[0], Glued(segs[1..]));
    }
  }

  /** Removing dot segments leaves normal text normal. */
  lemma RemovalStaysNormal(path: string)
    requires IsNormal(path)
    ensures IsNormal(RemoveDotSegments(path))
  {
    var stack := SegmentsLeft(path);
    var segs := [stack.first] + stack.rest;
    assert segs[1..] == stack.rest;
    hide Split, IsDot;
    forall s | s in segs ensures IsNormal(s) {
      if s != "" {
        assert s in Split(path);
        NormalSegments(path, s);
      }
    }
    NormalGlued(segs);
  }

  // --- The normal form ----------------------------------------------------------------------------------------

  /** What is known about one scheme. */
  datatype SchemeRules = SchemeRules(scheme: string, defaultPort: Option<string>, emptyPathIsRoot: bool)

  const SCHEMES := [
    SchemeRules("http", Some("80"), true),
    SchemeRules("https", Some("443"), true),
    SchemeRules("file", None, true)
  ]

  function RulesFor(schemes: seq<SchemeRules>, scheme: Option<string>): Option<SchemeRules> {
    if scheme.None? || schemes == [] then None
    else if schemes[0].scheme == scheme.value then Some(schemes[0])
    else RulesFor(schemes[1..], scheme)
  }

  /** Where the port begins: after the last colon, except within an IPv6 literal. */
  function PortAt(hostPort: string): (at: Option<nat>)
    ensures at.Some? ==> at.value < |hostPort|
  {
    match FindLast(hostPort, ']')
    case Some(end) => (match Find(hostPort[end..], ':') case Some(i) => Some(end + i) case None => None)
    case None => FindLast(hostPort, ':')
  }

  /** `[userinfo@]host[:port]`: the host in lower case, and without a port the scheme implies. */
  function NormalAuthority(authority: string, rules: Option<SchemeRules>): string {
    var at := FindLast(authority, '@');
    var hostPort := if at.Some? then authority[at.value + 1..] else authority;
    (if at.Some? then Normal(authority[..at.value]) + "@" else "") + NormalHostPort(hostPort, rules)
  }

  function NormalHostPort(hostPort: string, rules: Option<SchemeRules>): string {
    var split := PortAt(hostPort);
    var host := if split.Some? then hostPort[..split.value] else hostPort;
    var port := if split.Some? then hostPort[split.value + 1..] else "";
    Normal(Lowered(host)) + (if port == "" || (rules.Some? && rules.value.defaultPort == Some(port)) then "" else ":" + port)
  }

  function NormalPart(part: Option<string>): Option<string> {
    if part.Some? then Some(Normal(part.value)) else None
  }

  /** Dot segments go from a hierarchical path, and for some schemes an empty path is the root. */
  function NormalPath(path: string, scheme: Option<string>, hasAuthority: bool, rules: Option<SchemeRules>): string {
    var decoded := Normal(path);
    var removed := if scheme.Some? && (hasAuthority || StartsWith(decoded, "/")) then RemoveDotSegments(decoded) else decoded;
    if removed == "" && hasAuthority && rules.Some? && rules.value.emptyPathIsRoot then "/" else removed
  }

  function Normalize(u: Uri): Uri {
    var scheme := if u.scheme.Some? then Some(Lowered(u.scheme.value)) else None;
    var rules := RulesFor(SCHEMES, scheme);
    Uri(scheme,
        if u.authority.Some? then Some(NormalAuthority(u.authority.value, rules)) else None,
        NormalPath(u.path, scheme, u.authority.Some?, rules),
        NormalPart(u.query),
        NormalPart(u.fragment))
  }

  predicate HasWellFormedText(u: Uri) {
    && IsWellFormed(u.path) && (u.query.Some? ==> IsWellFormed(u.query.value))
    && (u.fragment.Some? ==> IsWellFormed(u.fragment.value))
  }

  lemma NormalPathIsFixed(path: string, scheme: Option<string>, hasAuthority: bool, rules: Option<SchemeRules>)
    requires IsWellFormed(path)
    ensures var p := NormalPath(path, scheme, hasAuthority, rules);
            IsNormal(p) && NormalPath(p, scheme, hasAuthority, rules) == p
  {
    NormalKeepsOctets(path);
    var decoded := Normal(path);
    RemovalStaysNormal(decoded);
    RemovingIsIdempotent(decoded);
    if StartsWith(decoded, "/") {
      assert decoded[0] == '/';
      RemovalStaysRooted(decoded);
      var r := RemoveDotSegments(decoded);
      assert r[..1] == "/";
    }
    RootIsNormal();
    hide RemoveDotSegments, Normal, IsWellFormed;
  }

  lemma RootIsNormal()
    ensures IsNormal("/") && RemoveDotSegments("/") == "/"
  {
    PlainReads('/', "");
    assert ['/'] + "" == "/";
    assert IsWellFormed("") && Normal("") == "";
    LoneSlash("");
    assert "" + "/" == "/";
  }

  /** Normalizing twice gives the path, the query and the fragment that normalizing once does. */
  lemma NormalizeIsFixed(u: Uri)
    requires HasWellFormedText(u)
    ensures var v := Normalize(u);
            && Normalize(v).scheme == v.scheme && Normalize(v).path == v.path
            && Normalize(v).query == v.query && Normalize(v).fragment == v.fragment
  {
    if u.scheme.Some? {
      LoweredIsLowered(u.scheme.value);
      LoweredIsLowered(Lowered(u.scheme.value));
    }
    var scheme := if u.scheme.Some? then Some(Lowered(u.scheme.value)) else None;
    NormalPathIsFixed(u.path, scheme, u.authority.Some?, RulesFor(SCHEMES, scheme));
    if u.query.Some? {
      NormalKeepsOctets(u.query.value);
    }
    if u.fragment.Some? {
      NormalKeepsOctets(u.fragment.value);
    }
    hide Normal, IsWellFormed, NormalPath, NormalAuthority, RulesFor;
  }

  // --- What the normal form is -----------------------------------------------------------------------------------

  predicate IsUpperHex(c: char) {
    '0' <= c <= '9' || 'A' <= c <= 'F'
  }

  /** Letters, digits and four marks: what section 2.3 of RFC 3986 leaves unencoded. */
  predicate NeedsNoEncoding(octet: int) {
    0x41 <= octet <= 0x5A || 0x61 <= octet <= 0x7A || 0x30 <= octet <= 0x39 || octet in {0x2D, 0x2E, 0x5F, 0x7E}
  }

  /** A percent sign with two hex digits after it, in upper case, that encode what needs encoding. */
  predicate EncodesPlainly(t: string, i: nat)
    requires i < |t|
  {
    t[i] == '%' ==>
      && i + 2 < |t| && IsUpperHex(t[i + 1]) && IsUpperHex(t[i + 2])
      && !NeedsNoEncoding(HexDigit(t[i + 1]).value * 16 + HexDigit(t[i + 2]).value)
  }

  predicate IsPlainlyWritten(t: string) {
    forall i: nat | i < |t| :: EncodesPlainly(t, i)
  }

  lemma NeedsNoEncodingIsUnreserved(octet: nat)
    requires octet < 256
    ensures NeedsNoEncoding(octet) <==> IsUnreserved(octet)
  {
  }

  lemma PlainTail(t: string, n: nat)
    requires n <= |t| && forall i: nat | i < n :: EncodesPlainly(t, i)
    ensures IsPlainlyWritten(t) <==> IsPlainlyWritten(t[n..])
  {
    forall i: nat | i < |t| - n ensures EncodesPlainly(t[n..], i) <==> EncodesPlainly(t, n + i) {
    }
    if IsPlainlyWritten(t[n..]) {
      forall i: nat | i < |t| ensures EncodesPlainly(t, i) {
        assert i >= n ==> EncodesPlainly(t[n..], i - n) == EncodesPlainly(t, n + (i - n));
      }
    }
  }

  lemma TwoDigits(a: nat, b: nat)
    requires a < 16 && b < 16
    ensures (a * 16 + b) / 16 == a && (a * 16 + b) % 16 == b
  {
  }

  lemma EncodedAsWritten(t: string)
    requires IsEncoded(t)
    ensures Written(Octet(t)) == t[..3] <==> EncodesPlainly(t, 0)
  {
    var octet, a, b := Octet(t), HexDigit(t[1]).value, HexDigit(t[2]).value;
    NeedsNoEncodingIsUnreserved(octet);
    TwoDigits(a, b);
    UpperHex(t[1]);
    UpperHex(t[2]);
    assert t[..3] == ['%', t[1], t[2]];
    assert !IsUnreserved(octet) ==> Written(octet) == ['%', HEX[a], HEX[b]];
    assert IsUnreserved(octet) ==> |Written(octet)| == 1;
    hide IsUnreserved, Written, NeedsNoEncoding, IsUpperHex, HexDigit;
  }

  lemma UpperHex(c: char)
    requires HexDigit(c).Some?
    ensures IsUpperHex(c) <==> HEX[HexDigit(c).value] == c
  {
    HexIs(HexDigit(c).value);
  }

  /** Text is its own normal form exactly when every percent sign in it encodes, in upper case, what needs encoding. */
  lemma {:induction false} NormalTextExactly(t: string)
    ensures IsNormal(t) <==> IsPlainlyWritten(t)
    decreases |t|
  {
    if t != "" {
      if t[0] != '%' {
        NormalTextExactly(t[1..]);
        PlainTail(t, 1);
        PlainReads(t[0], t[1..]);
        assert t == [t[0]] + t[1..];
        SamePrefix([t[0]], Normal(t[1..]), t[1..]);
      } else if !IsEncoded(t) {
        assert !EncodesPlainly(t, 0);
      } else {
        NormalTextExactly(t[3..]);
        EncodedAsWritten(t);
        EncodedStays(t);
        if EncodesPlainly(t, 0) {
          PlainTail(t, 3);
        }
      }
    }
  }

  lemma EncodedStays(t: string)
    requires IsEncoded(t)
    ensures Normal(t) == t <==> Written(Octet(t)) == t[..3] && Normal(t[3..]) == t[3..]
  {
    var w, more := Written(Octet(t)), t[3..];
    NormalIsNoLonger(more);
    WrittenIs(Octet(t), "");
    assert Normal(t) == w + Normal(more) && t == t[..3] + more;
    hide *;
    if Normal(t) == t {
      assert |w| + |Normal(more)| == 3 + |more|;
      assert (w + Normal(more))[..3] == w && (w + Normal(more))[3..] == Normal(more);
    }
  }

  /** A part of a reference in normal form: the same octets as before, plainly written. */
  predicate IsNormalFormOf(before: Option<string>, after: Option<string>) {
    && before.Some? == after.Some?
    && (after.Some? ==> IsPlainlyWritten(after.value) && Octets(after.value) == Octets(before.value))
  }

  /**
   What a normal form is, on well-formed text: the scheme in lower case, the path, the query and the
   fragment plainly written, all octets kept but for dot segments, of which a path that is a hierarchy has none.
   */
  lemma NormalizeGivesTheNormalForm(u: Uri)
    requires HasWellFormedText(u)
    ensures var v := Normalize(u);
            && (v.scheme.Some? <==> u.scheme.Some?) && (v.scheme.Some? ==> IsLowered(v.scheme.value) && v.scheme.value == Lowered(u.scheme.value))
            && (v.authority.Some? <==> u.authority.Some?)
            && IsNormalFormOf(u.query, v.query) && IsNormalFormOf(u.fragment, v.fragment) && IsPlainlyWritten(v.path)
            && (u.scheme.None? ==> IsNormalFormOf(Some(u.path), Some(v.path)))
            && (u.scheme.Some? && (u.authority.Some? || IsRooted(v.path)) ==> IsDotFree(v.path))
  {
    var v := Normalize(u);
    if u.scheme.Some? {
      LoweredIsLowered(u.scheme.value);
    }
    NormalPathIsFixed(u.path, v.scheme, u.authority.Some?, RulesFor(SCHEMES, v.scheme));
    NormalTextExactly(v.path);
    NormalKeepsOctets(u.path);
    NormalTextExactly(Normal(u.path));
    PathIsDotFree(u.path, v.scheme, u.authority.Some?, RulesFor(SCHEMES, v.scheme));
    if u.query.Some? {
      NormalKeepsOctets(u.query.value);
      NormalTextExactly(Normal(u.query.value));
    }
    if u.fragment.Some? {
      NormalKeepsOctets(u.fragment.value);
      NormalTextExactly(Normal(u.fragment.value));
    }
    hide Normal, IsWellFormed, NormalAuthority, RulesFor, IsPlainlyWritten, RemoveDotSegments, Octets, IsDotFree, Lowered;
  }

  lemma PathIsDotFree(path: string, scheme: Option<string>, hasAuthority: bool, rules: Option<SchemeRules>)
    ensures var p := NormalPath(path, scheme, hasAuthority, rules);
            scheme.Some? && (hasAuthority || IsRooted(p)) ==> IsDotFree(p)
  {
    NoDotSegmentIsLeft(Normal(path));
    NoDotSegmentIsLeft("/");
    RootIsNormal();
    hide Normal, RemoveDotSegments, IsDotFree;
  }

  // --- Parts of an authority ------------------------------------------------------------------------------------

  /** A host and a port, which has no colon: the host is lower-cased and decoded, and the port stays unless it is empty or implied. */
  lemma PortIsKept(host: string, port: string, rules: Option<SchemeRules>)
    requires ']' !in host && ':' !in port && ']' !in port
    ensures NormalHostPort(host + ":" + port, rules)
         == Normal(Lowered(host))
            + if port == "" then "" else if rules.Some? && rules.value.defaultPort == Some(port) then "" else ":" + port
  {
    var s := host + ":" + port;
    assert s == host + ([':'] + port);
    FindLastIs(host, ':', port);
    NotFoundLast(s, ']');
    hide Normal, FindLast;
    HostAndPort(host, port, rules);
  }

  /** An IPv6 literal keeps its colons. */
  lemma LiteralPortIsKept(literal: string, port: string, rules: Option<SchemeRules>)
    requires ':' !in port && ']' !in port
    ensures NormalHostPort(literal + "]:" + port, rules)
         == Normal(Lowered(literal + "]"))
            + if port == "" then "" else if rules.Some? && rules.value.defaultPort == Some(port) then "" else ":" + port
  {
    assert literal + "]:" + port == literal + "]" + ":" + port;
    LiteralPortBegins(literal, port);
    HostAndPort(literal + "]", port, rules);
  }

  lemma LiteralPortBegins(literal: string, port: string)
    requires ':' !in port && ']' !in port
    ensures PortAt(literal + "]" + ":" + port) == Some(|literal| + 1)
  {
    var s := literal + "]" + ":" + port;
    assert s == literal + ([']'] + (":" + port));
    FindLastIs(literal, ']', ":" + port);
    hide FindLast;
    assert s[|literal|..] == "]" + ([':'] + port);
    FindIs("]", ':', port);
    hide Find;
  }

  lemma HostAndPort(host: string, port: string, rules: Option<SchemeRules>)
    requires PortAt(host + ":" + port) == Some(|host|)
    ensures NormalHostPort(host + ":" + port, rules)
         == Normal(Lowered(host))
            + if port == "" then "" else if rules.Some? && rules.value.defaultPort == Some(port) then "" else ":" + port
  {
    hide Normal, PortAt;
    var s := host + ":" + port;
    assert s[..|host|] == host && s[|host| + 1..] == port;
  }

  /** Without a port the host is all there is. */
  lemma HostAloneIsLowered(host: string, rules: Option<SchemeRules>)
    requires ':' !in host && ']' !in host
    ensures NormalHostPort(host, rules) == Normal(Lowered(host))
  {
    NotFoundLast(host, ']');
    NotFoundLast(host, ':');
    hide Normal, FindLast;
    assert Normal(Lowered(host)) + "" == Normal(Lowered(host));
  }

  lemma {:induction false} FindLastIs(a: string, c: char, rest: string)
    requires c !in rest
    ensures FindLast(a + ([c] + rest), c) == Some(|a|)
    decreases |rest|
  {
    var s := a + ([c] + rest);
    if rest == "" {
      assert s[|s| - 1] == c;
    } else {
      var n := |rest| - 1;
      assert s[|s| - 1] == rest[n] && rest[n] in rest;
      assert s[..|s| - 1] == a + ([c] + rest[..n]);
      FindLastIs(a, c, rest[..n]);
    }
  }

  lemma {:induction false} NotFoundLast(s: string, c: char)
    requires c !in s
    ensures FindLast(s, c).None?
  {
    if s != "" {
      NotFoundLast(s[..|s| - 1], c);
    }
  }

  /** What stands before the last `@` is decoded but keeps its case. */
  lemma UserInfoIsKept(userInfo: string, hostPort: string, rules: Option<SchemeRules>)
    requires '@' !in hostPort
    ensures NormalAuthority(userInfo + "@" + hostPort, rules) == Normal(userInfo) + "@" + NormalHostPort(hostPort, rules)
    ensures NormalAuthority(hostPort, rules) == NormalHostPort(hostPort, rules)
  {
    var s := userInfo + "@" + hostPort;
    assert s == userInfo + (['@'] + hostPort);
    FindLastIs(userInfo, '@', hostPort);
    NotFoundLast(hostPort, '@');
    assert s[..|userInfo|] == userInfo && s[|userInfo| + 1..] == hostPort;
    hide Normal, FindLast, NormalHostPort;
    assert "" + NormalHostPort(hostPort, rules) == NormalHostPort(hostPort, rules);
  }

  /** `http`, `https` and `file` are known, the first two with a port; an authority of theirs with no path has the root. */
  lemma KnownSchemes(authority: string, query: Option<string>, fragment: Option<string>, scheme: string)
    ensures RulesFor(SCHEMES, Some(scheme)).Some? <==> scheme in {"http", "https", "file"}
    ensures RulesFor(SCHEMES, Some("http")).value.defaultPort == Some("80")
    ensures RulesFor(SCHEMES, Some("https")).value.defaultPort == Some("443")
    ensures RulesFor(SCHEMES, Some("file")).value.defaultPort == None
    ensures IsLowered(scheme) ==>
              Normalize(Uri(Some(scheme), Some(authority), "", query, fragment)).path == if scheme in {"http", "https", "file"} then "/" else ""
  {
    SchemesAre(scheme);
    SchemesAre("http");
    SchemesAre("https");
    SchemesAre("file");
    LoweredIsLowered(scheme);
    DotFreeIsUnchanged("") by {
      SplitFirst("", "");
    }
    assert Normal("") == "";
    hide RemoveDotSegments, Normal, NormalAuthority, RulesFor, NormalPart, Lowered;
  }

  lemma SchemesAre(scheme: string)
    ensures RulesFor(SCHEMES, Some(scheme)) == if scheme == "http" then Some(SCHEMES[0]) else if scheme == "https" then Some(SCHEMES[1])
                                               else if scheme == "file" then Some(SCHEMES[2]) else None
  {
    var two := SCHEMES[1..];
    var one := two[1..];
    assert two[0].scheme == "https" && one[0].scheme == "file" && one[1..] == [];
    assert RulesFor(one, Some(scheme)) == if scheme == "file" then Some(one[0]) else None;
    assert RulesFor(two, Some(scheme)) == if scheme == "https" then Some(two[0]) else RulesFor(one, Some(scheme));
  }

  // --- How a normal form reads ----------------------------------------------------------------------------------

  /** What normalizing puts into a text: what was there, unreserved characters, and percent signs and digits. */
  lemma {:induction false} NormalAddsNoDelimiter(s: string, c: char)
    requires c in Normal(s)
    ensures c in s || IsAlphanumeric(c) || c in "-._~%"
    decreases |s|
  {
    if s != "" {
      if IsEncoded(s) {
        if c in Written(Octet(s)) {
          assert forall i | 0 <= i < |HEX| :: IsAlphanumeric(HEX[i]);
        } else {
          NormalAddsNoDelimiter(s[3..], c);
          assert c in s[3..] ==> c in s;
        }
      } else if c != s[0] {
        NormalAddsNoDelimiter(s[1..], c);
      }
    }
  }

  lemma NormalPartIs(s: string, without: string)
    requires PartIs(Some(s), without) && forall c | c in without :: c == '/' || c == '?' || c == '#'
    ensures PartIs(Some(Normal(s)), without)
  {
    forall c | c in Normal(s) ensures IsUriChar(c) && c !in without {
      NormalAddsNoDelimiter(s, c);
    }
  }

  /** A delimiter is neither decoded nor part of an encoded octet, so text is normalized on either side of it. */
  lemma {:induction false} NormalAround(a: string, c: char, b: string)
    requires HexDigit(c).None? && c != '%'
    ensures Normal(a + ([c] + b)) == Normal(a) + ([c] + Normal(b))
    decreases |a|
  {
    var s := a + ([c] + b);
    if a == "" {
      PlainReads(c, b);
      assert s == [c] + b;
      assert "" + ([c] + Normal(b)) == [c] + Normal(b);
    } else if IsEncoded(a) {
      EncodedFirst(a, [c] + b);
      NormalAround(a[3..], c, b);
      AppendNormal(Written(Octet(a)), Normal(a[3..]), [c] + Normal(b));
    } else {
      assert s[0] == a[0] && s[1..] == a[1..] + ([c] + b);
      assert !IsEncoded(s) by {
        if |a| == 1 {
          assert s[1] == c;
        } else if |a| == 2 {
          assert s[1] == a[1] && s[2] == c;
        } else {
          assert s[1] == a[1] && s[2] == a[2];
        }
      }
      NormalAround(a[1..], c, b);
      AppendNormal([a[0]], Normal(a[1..]), [c] + Normal(b));
    }
  }

  /** What stands before the first colon decodes to a scheme. */
  predicate DecodesToScheme(path: string) {
    Find(path, ':').Some? && IsScheme(Normal(path[..Find(path, ':').value]))
  }

  lemma SchemeAfterDecoding(path: string)
    ensures LooksSchemed(Normal(path)) <==> DecodesToScheme(path)
  {
    match Find(path, ':')
    case Some(i) =>
      var a, b := path[..i], path[i + 1..];
      assert path == a + ([':'] + b);
      NormalAround(a, ':', b);
      if ':' in Normal(a) {
        NormalAddsNoDelimiter(a, ':');
      }
      FindIs(Normal(a), ':', Normal(b));
      assert Normal(path)[..|Normal(a)|] == Normal(a);
    case None =>
      if ':' in Normal(path) {
        NormalAddsNoDelimiter(path, ':');
      }
  }

  lemma SlashesAfterDecoding(path: string)
    ensures StartsWith(Normal(path), "/") <==> StartsWith(path, "/")
    ensures StartsWith(Normal(path), "//") <==> StartsWith(path, "//")
  {
    if StartsWith(path, "/") {
      PlainReads('/', path[1..]);
      assert path == ['/'] + path[1..];
      FirstSlash(path[1..]);
    } else {
      FirstSlash(path);
    }
  }

  lemma FirstSlash(s: string)
    ensures StartsWith(Normal(s), "/") <==> StartsWith(s, "/")
    ensures StartsWith("/" + Normal(s), "//") <==> StartsWith("/" + s, "//")
  {
    if s != "" {
      if IsEncoded(s) {
        WrittenIs(Octet(s), "");
        assert Normal(s)[0] == Written(Octet(s))[0];
      } else {
        assert Normal(s)[0] == s[0];
      }
    }
    TwoSlashes("/" + s);
    TwoSlashes("/" + Normal(s));
  }

  /** Where there is no scheme, one appears once octets are decoded; where there is one, dot segments leave two slashes. */
  ghost predicate ReadsDifferently(u: Uri) {
    && u.authority.None?
    && if u.scheme.None? then DecodesToScheme(u.path)
       else StartsWith(u.path, "/") && EmptyComesFirst(Counted(Split(Normal(u.path))))
  }

  /** Exactly then the normal form reads differently once it is printed. */
  lemma NormalFormReadsBack(u: Uri)
    requires Composes(u)
    ensures Parse(Print(Normalize(u))) == Ok(Normalize(u)) <==> !ReadsDifferently(u)
  {
    var v := Normalize(u);
    ReadsBackExactly(v);
    NormalSchemeIs(u);
    NormalAuthorityIs(u);
    NormalPathIs(u);
    NormalRestIs(u);
    hide Normal, LooksSchemed, IsUriChar, IsScheme, NormalAuthority, NormalPath, RulesFor, RemoveDotSegments, EmptyComesFirst, Split, Counted, DecodesToScheme;
  }

  lemma NormalSchemeIs(u: Uri)
    requires Composes(u)
    ensures var v := Normalize(u); v.scheme == u.scheme
  {
    if u.scheme.Some? {
      LoweredIsLowered(u.scheme.value);
    }
  }

  lemma NormalRestIs(u: Uri)
    requires Composes(u)
    ensures PartIs(Normalize(u).query, "#") && PartIs(Normalize(u).fragment, "")
  {
    hide LooksSchemed, IsUriChar, IsScheme;
    if u.query.Some? {
      NormalPartIs(u.query.value, "#");
    }
    if u.fragment.Some? {
      NormalPartIs(u.fragment.value, "");
    }
  }

  lemma NormalPathIs(u: Uri)
    requires Composes(u)
    ensures var v := Normalize(u);
            && PartIs(Some(v.path), "?#") && (u.authority.Some? ==> v.path == "" || v.path[0] == '/')
            && (u.authority.None? && u.scheme.Some? ==>
                  (StartsWith(v.path, "//") <==> StartsWith(u.path, "/") && EmptyComesFirst(Counted(Split(Normal(u.path))))))
            && (u.authority.None? && u.scheme.None? ==>
                  !StartsWith(v.path, "//") && (LooksSchemed(v.path) <==> DecodesToScheme(u.path)))
  {
    var decoded := Normal(u.path);
    hide RulesFor, NormalAuthority;
    NormalPartIs(u.path, "?#");
    SlashesAfterDecoding(u.path);
    RemovedParts(decoded);
    RemovalLeavesSlashes(decoded);
    SchemeAfterDecoding(u.path);
    assert u.path == "" ==> decoded == "";
    TwoSlashes("/");
    assert IsUriChar('/');
    hide RemoveDotSegments, LooksSchemed, IsUriChar, IsScheme, EmptyComesFirst, Counted, Split, Normal, DecodesToScheme;
    assert StartsWith(u.path, "/") ==> decoded[0] == '/';
    assert u.authority.Some? && u.path != "" ==> StartsWith(u.path, "/") by {
      assert u.path != "" ==> u.path[..1] == [u.path[0]];
    }
    assert decoded != "" && decoded[0] == '/' ==> decoded[..1] == "/";
  }

  lemma NormalAuthorityIs(u: Uri)
    requires Composes(u)
    ensures PartIs(Normalize(u).authority, "/?#")
  {
    if u.authority.Some? {
      AuthorityParts(u.authority.value, RulesFor(SCHEMES, Normalize(u).scheme));
      hide PartIs, NormalAuthority, NormalPath, PartsMeet, RulesFor, IsLowered;
    }
  }

  lemma SliceParts(s: string, from: nat, to: nat)
    requires from <= to <= |s| && PartIs(Some(s), "/?#")
    ensures PartIs(Some(s[from..to]), "/?#") && PartIs(Some(s[from..]), "/?#")
  {
    hide IsUriChar;
    assert forall c | c in s[from..to] :: c in s;
    assert forall c | c in s[from..] :: c in s;
  }

  lemma AuthorityParts(authority: string, rules: Option<SchemeRules>)
    requires PartIs(Some(authority), "/?#")
    ensures PartIs(Some(NormalAuthority(authority, rules)), "/?#")
  {
    var at := FindLast(authority, '@');
    hide Normal, FindLast, NormalHostPort, PortAt;
    if at.Some? {
      SliceParts(authority, 0, at.value);
      SliceParts(authority, at.value + 1, |authority|);
      assert authority[0..at.value] == authority[..at.value];
      NormalPartIs(authority[..at.value], "/?#");
      HostPortIs(authority[at.value + 1..], rules);
      assert IsUriChar('@');
      hide IsUriChar;
      BothHaveNone(Normal(authority[..at.value]), "@", "/?#");
      BothHaveNone(Normal(authority[..at.value]) + "@", NormalHostPort(authority[at.value + 1..], rules), "/?#");
    } else {
      HostPortIs(authority, rules);
      hide IsUriChar;
      assert "" + NormalHostPort(authority, rules) == NormalHostPort(authority, rules);
    }
  }

  lemma HostPortIs(hostPort: string, rules: Option<SchemeRules>)
    requires PartIs(Some(hostPort), "/?#")
    ensures HasNone(NormalHostPort(hostPort, rules), "/?#")
  {
    var split := PortAt(hostPort);
    var host := if split.Some? then hostPort[..split.value] else hostPort;
    var port := if split.Some? then hostPort[split.value + 1..] else "";
    hide Normal, PortAt;
    assert IsUriChar(':');
    hide IsUriChar;
    if split.Some? {
      SliceParts(hostPort, 0, split.value);
      SliceParts(hostPort, split.value + 1, |hostPort|);
      assert hostPort[0..split.value] == hostPort[..split.value];
    }
    LoweredParts(host);
    NormalPartIs(Lowered(host), "/?#");
    BothHaveNone(":", port, "/?#");
    BothHaveNone(Normal(Lowered(host)), if port == "" || (rules.Some? && rules.value.defaultPort == Some(port)) then "" else ":" + port, "/?#");
  }

  lemma LoweredParts(s: string)
    requires PartIs(Some(s), "/?#")
    ensures PartIs(Some(Lowered(s)), "/?#")
  {
    forall c | c in Lowered(s) ensures IsUriChar(c) && c !in "/?#" {
      var i :| 0 <= i < |s| && Lowered(s)[i] == c;
      assert s[i] in s;
    }
  }

  /** It happens without a scheme: `%61:b` is a path, and its normal form a scheme. */
  lemma NormalFormMayReadDifferently()
    ensures var u := Uri(None, None, "%61:b", None, None); Composes(u) && ReadsDifferently(u)
  {
    hide *;
    EncodedSchemeComposes();
    EncodedSchemeReadsDifferently();
  }

  lemma EncodedSchemeComposes()
    ensures Composes(Uri(None, None, "%61:b", None, None))
  {
    EncodedSchemeHasUriChars();
    ColonAfterThree();
    TwoSlashes("%61:b");
    assert !IsScheme("%61");
    hide Find, IsUriChar, IsScheme;
  }

  lemma EncodedSchemeHasUriChars()
    ensures PartIs(Some("%61:b"), "?#")
  {
    assert IsUriChar('%') && IsUriChar('6') && IsUriChar('1') && IsUriChar(':') && IsUriChar('b');
    hide IsUriChar;
  }

  lemma EncodedSchemeReadsDifferently()
    ensures ReadsDifferently(Uri(None, None, "%61:b", None, None))
  {
    hide Find;
    ColonAfterThree();
    var p := "%61";
    assert IsEncoded(p) && Octet(p) == 0x61 && Written(0x61) == "a" && p[3..] == "" && Normal(p) == "a" + "";
    assert IsScheme("a");
  }

  lemma ColonAfterThree()
    ensures Find("%61:b", ':') == Some(3) && "%61:b"[..3] == "%61"
  {
    FindIs("%61", ':', "b");
    assert "%61" + ([':'] + "b") == "%61:b";
  }

  /** And it happens with one: the path of `a:/%2E%2E//x` comes to begin with two slashes. */
  lemma NormalPathMayReadDifferently()
    ensures var u := Uri(Some("a"), None, "/%2E%2E//x", None, None); Composes(u) && ReadsDifferently(u)
  {
    hide *;
    EncodedDotsCompose();
    EncodedDotsReadDifferently();
  }

  lemma EncodedDotsCompose()
    ensures Composes(Uri(Some("a"), None, "/%2E%2E//x", None, None))
  {
    hide Find, LooksSchemed;
    TwoSlashes("/%2E%2E//x");
    assert PartIs(Some("/%2E%2E//x"), "?#");
    assert IsScheme("a") && IsLowered("a");
  }

  lemma EncodedDotsReadDifferently()
    ensures ReadsDifferently(Uri(Some("a"), None, "/%2E%2E//x", None, None))
  {
    DecodedToDots();
    PoppedToTwoSlashes();
    RemovalLeavesSlashes("/..//x");
    hide Normal, RemoveDotSegments, EmptyComesFirst, Counted, Split;
    TwoSlashes("//x");
    assert "/%2E%2E//x"[..1] == "/";
  }

  lemma DecodedToDots()
    ensures Normal("/%2E%2E//x") == "/..//x"
  {
    var dots := "%2E%2E//x";
    assert IsEncoded(dots) && Octet(dots) == 0x2E && Written(0x2E) == "." && dots[3..] == "%2E//x";
    assert IsEncoded("%2E//x") && Octet("%2E//x") == 0x2E && "%2E//x"[3..] == "//x";
    assert "//x"[1..] == "/x" && "/x"[1..] == "x" && "x"[1..] == "";
    assert Normal("x") == "x" && Normal("/x") == "/x" && Normal("//x") == "//x";
    assert Normal("%2E//x") == "." + "//x" == ".//x" && Normal(dots) == "." + ".//x" == "..//x";
    assert "/%2E%2E//x"[1..] == dots;
  }
}
