/** Endpoint URLs: the decoded Path and the escaped RawPath, kept in step (sections 2.1 and 3.3 of RFC 3986). */
module Endpoints {
  import opened Results
  import opened Bytes
  import opened Sequences
  import opened PercentEncoding

  /** The path part of a url.URL. */
  datatype URL = URL(path: bytes, rawPath: bytes)

  /** url.URL.EscapedPath: RawPath when it is a valid encoding of Path, else a default encoding of Path. */
  function EscapedPath(u: URL): bytes {
    if u.rawPath != [] && ValidEncoded(u.rawPath) && Unescape(u.rawPath) == Some(u.path) then u.rawPath
    else if u.path == "*" then "*"
    else Escape(u.path, KeptInPath)
  }

  /** url.URL.setPath, for the path of a base URL as the caller wrote it. */
  function ParsePath(written: bytes): Option<URL> {
    match Unescape(written)
    case None => None
    case Some(path) => Some(URL(path, if Escape(path, KeptInPath) == written then [] else written))
  }

  /** The normalization at the end of parseBaseURL: one trailing slash on each form of the path. */
  function NormalizeBase(parsed: URL): URL {
    URL(TrimRight(parsed.path) + SLASH, if parsed.rawPath != [] then TrimRight(parsed.rawPath) + SLASH else [])
  }

  // ---- escapePath ----

  function SplitSlash(s: bytes): (segments: seq<bytes>)
    ensures segments != []
  {
    if s == [] then [[]]
    else
      var rest := SplitSlash(s[1..]);
      if s[0] == '/' then [[]] + rest else [[s[0]] + rest[0]] + rest[1..]
  }

  function JoinSlash(segments: seq<bytes>): bytes
    requires segments != []
  {
    if |segments| == 1 then segments[0] else segments[0] + SLASH + JoinSlash(segments[1..])
  }

  function PathEscape(segment: bytes): bytes {
    Escape(segment, KeptInSegment)
  }

  function EscapeSegments(segments: seq<bytes>): seq<bytes> {
    seq(|segments|, i requires 0 <= i < |segments| => PathEscape(segments[i]))
  }

  method EscapePath(path: bytes) returns (escaped: bytes)
    ensures escaped == Escape(path, KeptInSegments)
  {
    var segments := SplitSlash(path);
    ghost var original := segments;
    for i := 0 to |segments|
      invariant |segments| == |original|
      invariant forall j :: 0 <= j < |segments| ==> segments[j] == if j < i then PathEscape(original[j]) else original[j]
    {
      segments := segments[i := PathEscape(segments[i])];
    }
    assert segments == EscapeSegments(original);
    EscapeBySegments(path);
    return JoinSlash(segments);
  }

  lemma EmptyFirstSegment(rest: seq<bytes>)
    requires rest != []
    ensures JoinSlash(EscapeSegments([[]] + rest)) == SLASH + JoinSlash(EscapeSegments(rest))
  {
    assert EscapeSegments([[]] + rest)[1..] == EscapeSegments(rest);
    assert [] + SLASH + JoinSlash(EscapeSegments(rest)) == SLASH + JoinSlash(EscapeSegments(rest));
  }

  lemma LongerFirstSegment(c: byte, rest: seq<bytes>)
    requires rest != []
    ensures JoinSlash(EscapeSegments([[c] + rest[0]] + rest[1..])) ==
            EscapeByte(c, KeptInSegment) + JoinSlash(EscapeSegments(rest))
  {
    var escaped, longer := EscapeSegments(rest), EscapeSegments([[c] + rest[0]] + rest[1..]);
    var first := EscapeByte(c, KeptInSegment);
    assert ([c] + rest[0])[1..] == rest[0];
    assert longer[0] == first + escaped[0];
    assert longer[1..] == escaped[1..];
    if |rest| > 1 {
      var tail := JoinSlash(escaped[1..]);
      Assoc(first, escaped[0], SLASH);
      Assoc(first, escaped[0] + SLASH, tail);
    }
  }

  /** Escaping segment by segment keeps exactly the slashes that separate them. */
  lemma {:induction false} EscapeBySegments(s: bytes)
    ensures JoinSlash(EscapeSegments(SplitSlash(s))) == Escape(s, KeptInSegments)
  {
    if s != [] {
      EscapeBySegments(s[1..]);
      if s[0] == '/' {
        EmptyFirstSegment(SplitSlash(s[1..]));
      } else {
        LongerFirstSegment(s[0], SplitSlash(s[1..]));
      }
    }
  }

  // ---- Endpoints ----

  function RootEndpoint(base: URL, path: bytes): URL {
    var relative := TrimPrefix(path);
    URL(TrimSuffix(base.path) + SLASH + relative,
        TrimSuffix(EscapedPath(base)) + SLASH + Escape(relative, KeptInSegments))
  }

  const API: bytes := "api/v1/"

  function Endpoint(base: URL, path: bytes): URL {
    RootEndpoint(base, API + TrimPrefix(path))
  }

  const POLICIES: bytes := "policies/"

  datatype EndpointError = UnsafeUser | NotASegment

  /** validateEntityID on the bytes of a UTF-8 string: no quote, no backslash and no control character, the last of
      which are the C0 range, DEL, and the C1 range with its lead byte C2. */
  predicate SafeUser(user: bytes) {
    forall i :: 0 <= i < |user| ==>
      && user[i] != '"' && user[i] != '\\' && user[i] >= ' ' && user[i] != '\U{7F}'
      && (user[i] == '\U{C2}' && i + 1 < |user| ==> !('\U{80}' <= user[i + 1] <= '\U{9F}'))
  }

  /** A user that can stand as one path segment: not empty, and no dot segment. */
  predicate IsSegment(user: bytes) {
    user != "" && user != "." && user != ".."
  }

  function UserPoliciesEndpoint(base: URL, user: bytes): Result<URL, EndpointError> {
    if !SafeUser(user) then Err(UnsafeUser)
    else if !IsSegment(user) then Err(NotASegment)
    else
      var result := Endpoint(base, POLICIES);
      Ok(URL(TrimSuffix(result.path) + SLASH + user, TrimSuffix(EscapedPath(result)) + SLASH + PathEscape(user)))
  }

  // ---- The two forms stay in step ----

  /** RawPath is a valid encoding of Path, so it is what goes on the wire. */
  predicate InStep(u: URL) {
    u.rawPath != [] && ValidEncoded(u.rawPath) && Unescape(u.rawPath) == Some(u.path)
  }

  /** EscapedPath decodes to Path for every URL, however RawPath was set. */
  lemma EscapedPathDecodes(u: URL)
    ensures Unescape(EscapedPath(u)) == Some(u.path) && ValidEncoded(EscapedPath(u))
  {
    UnescapeOfEscape(u.path, KeptInPath);
    EscapedIsValid(u.path, KeptInPath);
    if u.path == "*" {
      UnescapeOfEscape("*", c => c == '*');
      assert Escape("*", c => c == '*') == "*";
    }
  }

  lemma EscapedStar()
    ensures Escape("*", KeptInPath) == "%2A"
  {
    var star: bytes := "*";
    assert EscapeByte('*', KeptInPath) == "%2A" && star[1..] == [];
    assert Escape(star, KeptInPath) == EscapeByte('*', KeptInPath) + [];
  }

  /** Before normalization a written path is kept as it is, except one with other bytes, and the escaped star. */
  lemma ParsedPathKeptIff(written: bytes)
    requires ParsePath(written).Some?
    ensures EscapedPath(ParsePath(written).value) == written <==> ValidEncoded(written) && written != "%2A"
  {
    var parsed := ParsePath(written).value;
    EscapedPathDecodes(parsed);
    EscapedStar();
    EscapedIsValid(parsed.path, KeptInPath);
    if parsed.rawPath == [] && written == [] {
      assert parsed.path == [];
    }
    if parsed.path == "*" && written == "%2A" {
      assert EscapedPath(parsed) == "*";
    }
    if written == "%2A" {
      StarDecodes(written);
    }
  }

  lemma StarDecodes(written: bytes)
    requires written == "%2A"
    ensures Unescape(written) == Some("*")
  {
    assert UnescapeFirst(written) == Some(('*', written[3..]));
    assert Unescape(written[3..]) == Some([]);
    assert ['*'] + [] == "*";
  }

  /** What every accepted base URL looks like. */
  predicate BaseForm(base: URL) {
    EndsWithSlash(base.path) && (base.rawPath != [] ==> EndsWithSlash(base.rawPath))
  }

  lemma EscapedBaseEndsWithSlash(base: URL)
    requires BaseForm(base)
    ensures EndsWithSlash(EscapedPath(base))
  {
    var start := base.path[..|base.path| - 1];
    assert base.path == start + SLASH;
    EscapeConcat(start, SLASH, KeptInPath);
    assert Escape(SLASH, KeptInPath) == SLASH by {
      assert SLASH[1..] == [];
    }
  }

  lemma TrimmedDecodes(escaped: bytes, path: bytes)
    requires EndsWithSlash(escaped) && Unescape(escaped) == Some(path)
    ensures EndsWithSlash(path) && Unescape(TrimSuffix(escaped)) == Some(TrimSuffix(path))
  {
    var start := escaped[..|escaped| - 1];
    assert escaped == start + SLASH;
    UnescapeBeforeSlash(start);
    var decoded := Unescape(start).value;
    assert (decoded + SLASH)[..|decoded + SLASH| - 1] == decoded;
  }

  /** Joining two escaped texts with a slash joins what they decode to. */
  lemma JoinedInStep(a: bytes, b: bytes, path: bytes, path': bytes)
    requires Unescape(a) == Some(path) && Unescape(b) == Some(path') && ValidEncoded(a) && ValidEncoded(b)
    ensures InStep(URL(path + SLASH + path', a + SLASH + b))
  {
    assert Unescape(SLASH) == Some(SLASH) by {
      UnescapeOfEscape(SLASH, KeptInPath);
      assert SLASH[1..] == [];
    }
    UnescapeConcat(a, SLASH);
    UnescapeConcat(a + SLASH, b);
  }

  lemma EscapedIsInStep(s: bytes, kept: byte -> bool)
    requires !kept('%') && forall c: byte :: kept(c) ==> KeptInSegments(c)
    ensures Unescape(Escape(s, kept)) == Some(s) && ValidEncoded(Escape(s, kept))
  {
    UnescapeOfEscape(s, kept);
    EscapedIsValid(s, kept);
  }

  /** Every endpoint of an accepted base is in step. */
  lemma RootEndpointInStep(base: URL, path: bytes)
    requires BaseForm(base)
    ensures InStep(RootEndpoint(base, path))
  {
    EscapedPathDecodes(base);
    EscapedBaseEndsWithSlash(base);
    TrimmedDecodes(EscapedPath(base), base.path);
    EscapedIsInStep(TrimPrefix(path), KeptInSegments);
    JoinedInStep(TrimSuffix(EscapedPath(base)), Escape(TrimPrefix(path), KeptInSegments),
                 TrimSuffix(base.path), TrimPrefix(path));
  }

  /** Every endpoint extends both forms of the base by the path without its leading slash. */
  lemma RootEndpointIs(base: URL, path: bytes)
    requires BaseForm(base)
    ensures var u, relative := RootEndpoint(base, path), if path != [] && path[0] == '/' then path[1..] else path;
            && u.path == base.path + relative
            && EscapedPath(u) == EscapedPath(base) + Escape(relative, KeptInSegments)
  {
    EscapedBaseEndsWithSlash(base);
    RootEndpointInStep(base, path);
    TrimmedThenSlash(base.path);
    TrimmedThenSlash(EscapedPath(base));
  }

  lemma TrimmedThenSlash(s: bytes)
    requires EndsWithSlash(s)
    ensures TrimSuffix(s) + SLASH == s
  {
  }

  /** Below the base every API endpoint starts with api/v1, on the wire as well. */
  lemma EndpointIs(base: URL, path: bytes)
    requires BaseForm(base)
    ensures var u, relative := Endpoint(base, path), if path != [] && path[0] == '/' then path[1..] else path;
            && u.path == base.path + ("api/v1/" + relative)
            && EscapedPath(u) == EscapedPath(base) + ("api/v1/" + Escape(relative, KeptInSegments))
  {
    var relative := TrimPrefix(path);
    RootEndpointIs(base, API + relative);
    EscapeConcat(API, relative, KeptInSegments);
    EscapeAllKept(API, KeptInSegments);
  }

  // ---- One segment per user ----

  /** The bytes after the last slash. */
  function LastSegment(s: bytes): bytes {
    if '/' !in s then s else if s[0] == '/' && '/' !in s[1..] then s[1..] else LastSegment(s[1..])
  }

  lemma {:induction false} LastSegmentAfterSlash(before: bytes, segment: bytes)
    requires '/' !in segment
    ensures LastSegment(before + SLASH + segment) == segment
  {
    var s := before + SLASH + segment;
    assert s[|before|] == '/';
    if before == [] {
      assert s[1..] == segment;
    } else {
      assert s[1..] == before[1..] + SLASH + segment;
      assert s[1..][|before| - 1] == '/';
      LastSegmentAfterSlash(before[1..], segment);
    }
  }

  lemma {:induction false} EscapeAllKept(s: bytes, kept: byte -> bool)
    requires forall c :: c in s ==> kept(c)
    ensures Escape(s, kept) == s
  {
    if s != [] {
      EscapeAllKept(s[1..], kept);
      assert [s[0]] + s[1..] == s;
    }
  }

  lemma DropLastSlash(before: bytes, after: bytes)
    ensures TrimSuffix(before + (after + SLASH)) == before + after
  {
    assert (before + (after + SLASH))[..|before| + |after|] == before + after;
  }

  /** An endpoint that names a directory of unescaped bytes. */
  lemma DirectoryEndpointIs(base: URL, name: bytes)
    requires BaseForm(base)
    requires name != [] && name[0] != '/' && forall c :: c in name ==> KeptInSegments(c)
    ensures var u := RootEndpoint(base, name + SLASH);
            && BaseForm(u)
            && TrimSuffix(u.path) == TrimSuffix(base.path) + SLASH + name
            && TrimSuffix(EscapedPath(u)) == TrimSuffix(EscapedPath(base)) + SLASH + name
  {
    assert TrimPrefix(name + SLASH) == name + SLASH;
    RootEndpointInStep(base, name + SLASH);
    EscapeAllKept(name + SLASH, KeptInSegments);
    DropLastSlash(TrimSuffix(base.path) + SLASH, name);
    DropLastSlash(TrimSuffix(EscapedPath(base)) + SLASH, name);
  }

  lemma UserSegment(before: bytes, user: bytes)
    ensures '/' !in PathEscape(user) && Unescape(PathEscape(user)) == Some(user) && ValidEncoded(PathEscape(user))
    ensures LastSegment(before + SLASH + PathEscape(user)) == PathEscape(user)
  {
    EscapedIsInStep(user, KeptInSegment);
    NoSlashInSegment(user);
    LastSegmentAfterSlash(before, PathEscape(user));
  }

  lemma NoSlashInSegment(user: bytes)
    ensures '/' !in PathEscape(user)
  {
    EscapedBytes(user, KeptInSegment);
  }

  /** A user below a directory: in step, and the escaped user is the whole last segment. */
  lemma UserBelow(directory: URL, user: bytes)
    requires BaseForm(directory)
    ensures var u := URL(TrimSuffix(directory.path) + SLASH + user,
                         TrimSuffix(EscapedPath(directory)) + SLASH + PathEscape(user));
            InStep(u) && LastSegment(u.rawPath) == PathEscape(user)
  {
    EscapedPathDecodes(directory);
    EscapedBaseEndsWithSlash(directory);
    TrimmedDecodes(EscapedPath(directory), directory.path);
    UserSegment(TrimSuffix(EscapedPath(directory)), user);
    JoinedInStep(TrimSuffix(EscapedPath(directory)), PathEscape(user), TrimSuffix(directory.path), user);
  }

  const DIRECTORY: bytes := "api/v1/policies"

  lemma DirectoryName()
    ensures API + TrimPrefix(POLICIES) == DIRECTORY + SLASH
    ensures DIRECTORY[0] != '/' && forall c :: c in DIRECTORY ==> KeptInSegments(c)
  {
  }

  lemma DotSegments(user: bytes)
    requires IsSegment(user) && Unescape(PathEscape(user)) == Some(user)
    ensures IsSegment(PathEscape(user))
  {
    EscapeAllKept(".", KeptInSegment);
    EscapeAllKept("..", KeptInSegment);
    UnescapeOfEscape(".", KeptInSegment);
    UnescapeOfEscape("..", KeptInSegment);
  }

  function UserPath(prefix: bytes, user: bytes): bytes {
    prefix + SLASH + DIRECTORY + SLASH + PathEscape(user)
  }

  lemma AcceptedUserEndpoint(base: URL, user: bytes)
    requires BaseForm(base) && SafeUser(user) && IsSegment(user)
    ensures UserPoliciesEndpoint(base, user).Ok?
    ensures var u := UserPoliciesEndpoint(base, user).value;
            && InStep(u)
            && u.path == TrimSuffix(base.path) + SLASH + DIRECTORY + SLASH + user
            && EscapedPath(u) == UserPath(TrimSuffix(EscapedPath(base)), user)
            && LastSegment(EscapedPath(u)) == PathEscape(user)
  {
    DirectoryName();
    DirectoryEndpointIs(base, DIRECTORY);
    UserBelow(RootEndpoint(base, DIRECTORY + SLASH), user);
  }

  /** Which users are refused, and why. */
  lemma UserAcceptedIff(base: URL, user: bytes)
    ensures var endpoint := UserPoliciesEndpoint(base, user);
            && (endpoint.Ok? <==> SafeUser(user) && user != "" && user != "." && user != "..")
            && (endpoint == Err(UnsafeUser) <==> !SafeUser(user))
            && (endpoint == Err(NotASegment) <==> SafeUser(user) && (user == "" || user == "." || user == ".."))
  {
  }

  /** For every accepted base URL and every user. The user is refused when it is unsafe, and otherwise when it is empty
      or a dot segment. An accepted one has an endpoint that is in step; its escaped path is the base's, the policies
      directory and the escaped user; and that last segment has no slash, decodes to exactly the user, and is no dot
      segment. */
  lemma UserEndpointIs(base: URL, user: bytes)
    requires BaseForm(base)
    ensures var endpoint := UserPoliciesEndpoint(base, user);
            && (endpoint.Ok? <==> SafeUser(user) && user != "" && user != "." && user != "..")
            && (endpoint == Err(UnsafeUser) <==> !SafeUser(user))
            && (endpoint == Err(NotASegment) <==> SafeUser(user) && (user == "" || user == "." || user == ".."))
    ensures UserPoliciesEndpoint(base, user).Ok? ==>
              var u := UserPoliciesEndpoint(base, user).value;
              && InStep(u)
              && u.path == TrimSuffix(base.path) + SLASH + DIRECTORY + SLASH + user
              && EscapedPath(u) == UserPath(TrimSuffix(EscapedPath(base)), user)
              && LastSegment(EscapedPath(u)) == PathEscape(user)
              && '/' !in PathEscape(user) && Unescape(PathEscape(user)) == Some(user)
              && PathEscape(user) != "" && PathEscape(user) != "." && PathEscape(user) != ".."
  {
    UserAcceptedIff(base, user);
    if SafeUser(user) && IsSegment(user) {
      AcceptedUserEndpoint(base, user);
      UserSegment([], user);
      DotSegments(user);
    }
  }

  /** Distinct users have distinct endpoints, on the wire as well as decoded. */
  lemma UserEndpointsDistinct(base: URL, user: bytes, other: bytes)
    requires BaseForm(base) && SafeUser(user) && IsSegment(user) && SafeUser(other) && IsSegment(other)
    ensures UserPoliciesEndpoint(base, user).Ok? && UserPoliciesEndpoint(base, other).Ok?
    ensures var a, b := UserPoliciesEndpoint(base, user).value, UserPoliciesEndpoint(base, other).value;
            EscapedPath(a) == EscapedPath(b) <==> user == other
  {
    UserEndpointIs(base, user);
    UserEndpointIs(base, other);
  }

  // ---- Base URL normalization ----

  lemma NormalizedBaseForm(parsed: URL)
    ensures BaseForm(NormalizeBase(parsed))
  {
  }

  lemma EscapeLast(start: bytes, last: byte, kept: byte -> bool)
    ensures Escape(start + [last], kept) == Escape(start, kept) + EscapeByte(last, kept)
  {
    EscapeConcat(start, [last], kept);
    assert [last][1..] == [];
    assert EscapeByte(last, kept) + [] == EscapeByte(last, kept);
  }

  lemma {:induction false} TrimRightOfEscape(path: bytes)
    ensures TrimRight(Escape(path, KeptInPath)) == Escape(TrimRight(path), KeptInPath)
  {
    if path != [] {
      var start, last := path[..|path| - 1], path[|path| - 1];
      assert path == start + [last];
      EscapeLast(start, last, KeptInPath);
      if last == '/' {
        assert (Escape(start, KeptInPath) + SLASH)[..|Escape(start, KeptInPath)|] == Escape(start, KeptInPath);
        TrimRightOfEscape(start);
      } else {
        LastByteEscaped(Escape(start, KeptInPath), last);
      }
    }
  }

  lemma LastByteEscaped(before: bytes, last: byte)
    requires last != '/'
    ensures !EndsWithSlash(before + EscapeByte(last, KeptInPath))
  {
  }

  /** What normalization does to the decoded path and to what the escaped one decodes to. */
  lemma NormalizedForms(written: bytes)
    requires ParsePath(written).Some?
    ensures Unescape(TrimRight(written)).Some?
    ensures var decoded := Unescape(TrimRight(written)).value;
            && NormalizeBase(ParsePath(written).value).path == TrimRight(decoded) + SLASH
            && Unescape(TrimRight(written) + SLASH) == Some(decoded + SLASH)
            && (TrimRight(decoded) == decoded <==> !EndsWithEscapedSlash(TrimRight(written)))
  {
    TrimRightProperties(written);
    TrimRightDecodes(written);
    DecodedSlashIff(TrimRight(written));
    SlashDecodes();
    UnescapeConcat(TrimRight(written), SLASH);
    TrimRightProperties(Unescape(TrimRight(written)).value);
  }

  lemma SlashDecodes()
    ensures Unescape(SLASH) == Some(SLASH)
  {
    EscapeAllKept(SLASH, KeptInPath);
    UnescapeOfEscape(SLASH, KeptInPath);
  }

  lemma EscapedWithSlash(path: bytes)
    ensures Escape(TrimRight(path) + SLASH, KeptInPath) == TrimRight(Escape(path, KeptInPath)) + SLASH
  {
    TrimRightOfEscape(path);
    EscapeLast(TrimRight(path), '/', KeptInPath);
  }

  lemma SameBeforeSlash(a: bytes, b: bytes)
    ensures a + SLASH == b + SLASH <==> a == b
  {
    assert (a + SLASH)[..|a + SLASH| - 1] == a;
    assert (b + SLASH)[..|b + SLASH| - 1] == b;
  }

  /** Normalization keeps the escaped prefix that the caller wrote, up to trailing slashes, exactly when it contains
      only bytes that an escaped path may contain and what remains of it does not end with an escaped slash. */
  lemma PrefixPreservedIff(written: bytes)
    requires ParsePath(written).Some?
    ensures EscapedPath(NormalizeBase(ParsePath(written).value)) == TrimRight(written) + SLASH <==>
            ValidEncoded(written) && !EndsWithEscapedSlash(TrimRight(written))
  {
    var base := NormalizeBase(ParsePath(written).value);
    NormalizedForms(written);
    TrimmedIsValidIff(written);
    EscapedPathDecodes(base);
    if EndsWithEscapedSlash(TrimRight(written)) {
      var decoded := Unescape(TrimRight(written)).value;
      SameBeforeSlash(TrimRight(decoded), decoded);
    } else if ValidEncoded(written) {
      PrefixPreserved(written);
    }
  }

  lemma PrefixPreserved(written: bytes)
    requires ParsePath(written).Some? && ValidEncoded(written)
    requires var base := NormalizeBase(ParsePath(written).value);
             Unescape(TrimRight(written) + SLASH) == Some(base.path)
    ensures EscapedPath(NormalizeBase(ParsePath(written).value)) == TrimRight(written) + SLASH
  {
    var parsed := ParsePath(written).value;
    TrimmedIsValidIff(written);
    if parsed.rawPath == [] {
      EscapedWithSlash(parsed.path);
    }
  }

  lemma TrimmedIsValidIff(written: bytes)
    ensures ValidEncoded(TrimRight(written) + SLASH) <==> ValidEncoded(written)
  {
    TrimRightProperties(written);
    var trimmed := TrimRight(written);
    assert written == trimmed + written[|trimmed|..];
    assert forall c :: c in written[|trimmed|..] ==> c == '/';
    assert '/' in trimmed + SLASH ==> AllowedInEscapedPath('/');
  }

  /** A prefix with any other byte is encoded anew from the decoded path, so each of its escaped slashes becomes a
      separator. */
  lemma OtherBytesReencode(written: bytes)
    requires ParsePath(written).Some? && !ValidEncoded(written)
    ensures var base := NormalizeBase(ParsePath(written).value);
            EscapedPath(base) == Escape(base.path, KeptInPath)
  {
    var parsed := ParsePath(written).value;
    var base := NormalizeBase(parsed);
    TrimmedIsValidIff(written);
    assert base.path[|base.path| - 1] == '/';
  }

  lemma UnescapeAround(start: bytes, slash: bytes, rest: bytes)
    requires '%' !in start && '%' !in rest && slash in {"%2F", "%2f"}
    ensures Unescape(start + slash + rest) == Some(start + SLASH + rest)
  {
    UnescapePlain(start);
    UnescapePlain(rest);
    EscapedSlashDecodes(slash);
    UnescapeConcat(start, slash);
    UnescapeConcat(start + slash, rest);
  }

  lemma EscapedSlashDecodes(slash: bytes)
    requires slash in {"%2F", "%2f"}
    ensures Unescape(slash) == Some(SLASH)
  {
    assert UnescapeFirst(slash) == Some(('/', slash[3..]));
    assert Unescape(slash[3..]) == Some([]);
    assert ['/'] + [] == SLASH;
  }

  lemma EscapeAround(before: bytes, other: byte, after: bytes)
    requires forall c :: c in before + after ==> KeptInPath(c)
    ensures Escape(before + [other] + after, KeptInPath) == before + EscapeByte(other, KeptInPath) + after
  {
    assert forall c :: c in before ==> c in before + after;
    assert forall c :: c in after ==> c in before + after;
    EscapeAllKept(before, KeptInPath);
    EscapeAllKept(after, KeptInPath);
    EscapeLast(before, other, KeptInPath);
    EscapeConcat(before + [other], after, KeptInPath);
  }

  /** A prefix such as "/a%2Fb|c": its escaped slash becomes a separator, although the prefix does not end with it. */
  lemma InnerSlashLost(start: bytes, slash: bytes, middle: bytes, other: byte, end: bytes)
    requires forall c :: c in start + middle + end ==> KeptInPath(c)
    requires slash in {"%2F", "%2f"} && !AllowedInEscapedPath(other) && !EndsWithSlash(end)
    ensures var written := start + slash + (middle + [other] + end);
            && ParsePath(written).Some?
            && !EndsWithEscapedSlash(TrimRight(written))
            && EscapedPath(NormalizeBase(ParsePath(written).value)) ==
               start + SLASH + middle + EscapeByte(other, KeptInPath) + (end + SLASH)
  {
    var rest := middle + [other] + end;
    var written, path := start + slash + rest, start + SLASH + rest;
    assert path == start + SLASH + middle + ([other] + end);
    KeptBytes(start, middle, end);
    assert Unescape(written) == Some(path) by {
      UnescapeAround(start, slash, rest);
    }
    assert written == start + slash + middle + ([other] + end);
    EndsAfterOther(start + slash + middle, other, end);
    EndsAfterOther(start + SLASH + middle, other, end);
    ReencodedPath(written, path, start + SLASH + middle, other, end);
  }

  lemma ReencodedPath(written: bytes, path: bytes, before: bytes, other: byte, end: bytes)
    requires Unescape(written) == Some(path) && TrimRight(path) == path == before + ([other] + end)
    requires other in written && !AllowedInEscapedPath(other)
    requires forall c :: c in before + (end + SLASH) ==> KeptInPath(c)
    ensures EscapedPath(NormalizeBase(ParsePath(written).value)) ==
            before + EscapeByte(other, KeptInPath) + (end + SLASH)
  {
    OtherBytesReencode(written);
    EscapeAround(before, other, end + SLASH);
    Assoc(before, [other], end + SLASH);
    Assoc([other], end, SLASH);
    Assoc(before, [other] + end, SLASH);
  }

  lemma KeptBytes(start: bytes, middle: bytes, end: bytes)
    requires forall c :: c in start + middle + end ==> KeptInPath(c)
    ensures '%' !in start && '%' !in middle && '%' !in end
    ensures forall c :: c in start + SLASH + middle + (end + SLASH) ==> KeptInPath(c)
  {
    assert forall c :: c in start + SLASH + middle + (end + SLASH) ==> c in start + middle + end || c == '/';
    assert forall c :: c in start || c in middle || c in end ==> c in start + middle + end;
  }

  lemma EndsAfterOther(before: bytes, other: byte, end: bytes)
    requires '%' !in end && !EndsWithSlash(end) && !AllowedInEscapedPath(other)
    ensures var s := before + ([other] + end);
            other in s && TrimRight(s) == s && !EndsWithEscapedSlash(s)
  {
    var s := before + ([other] + end);
    assert s[|before|] == other;
    assert forall i :: 0 <= i < |end| ==> s[|before| + 1 + i] == end[i];
  }

  /** One such prefix, in full. */
  lemma InnerSlashExample(written: bytes)
    requires written == "/a%2Fb|c"
    ensures ParsePath(written).Some? && !EndsWithEscapedSlash(TrimRight(written))
    ensures EscapedPath(NormalizeBase(ParsePath(written).value)) == "/a/b%7Cc/"
  {
    var start, slash, middle, end := ExampleParts(written);
    InnerSlashLost(start, slash, middle, '|', end);
  }

  lemma ExampleParts(written: bytes) returns (start: bytes, slash: bytes, middle: bytes, end: bytes)
    requires written == "/a%2Fb|c"
    ensures forall c :: c in start + middle + end ==> KeptInPath(c)
    ensures slash in {"%2F", "%2f"} && !EndsWithSlash(end)
    ensures written == start + slash + (middle + ['|'] + end)
    ensures start + SLASH + middle + EscapeByte('|', KeptInPath) + (end + SLASH) == "/a/b%7Cc/"
  {
    start, slash, middle, end := "/a", "%2F", "b", "c";
    assert forall c :: c in start + middle + end ==> c in "/abc";
    assert EscapeByte('|', KeptInPath) == "%7C";
  }

  lemma EndsEscaped(start: bytes, slash: bytes)
    requires slash in {"%2F", "%2f"}
    ensures TrimRight(start + slash) == start + slash && EndsWithEscapedSlash(start + slash)
  {
    var s := start + slash;
    assert |s| == |start| + 3 && forall i :: 0 <= i < 3 ==> s[|start| + i] == slash[i];
  }

  /** Every base path that ends with an escaped slash, such as "/a%2F", loses it. */
  lemma EscapedSlashLost(start: bytes, slash: bytes)
    requires Unescape(start).Some? && slash in {"%2F", "%2f"}
    ensures var written := start + slash;
            ParsePath(written).Some? && EscapedPath(NormalizeBase(ParsePath(written).value)) != written + SLASH
  {
    EscapedSlashDecodes(slash);
    UnescapeConcat(start, slash);
    EndsEscaped(start, slash);
    PrefixPreservedIff(start + slash);
  }

  // ---- From the base URL to the user ----

  /** For every base path that parses, and every user: the user is accepted exactly when it is safe and one segment. Its
      endpoint is in step and its last escaped segment is the user. When the prefix is preserved it is what the caller
      wrote, then the directory, then the user. */
  lemma UserEndpointOfBase(written: bytes, user: bytes)
    requires ParsePath(written).Some?
    ensures var endpoint := UserPoliciesEndpoint(NormalizeBase(ParsePath(written).value), user);
            && (endpoint.Ok? <==> SafeUser(user) && user != "" && user != "." && user != "..")
            && (endpoint.Ok? ==>
                  && InStep(endpoint.value)
                  && LastSegment(EscapedPath(endpoint.value)) == PathEscape(user)
                  && (EscapedPath(endpoint.value) == UserPath(TrimRight(written), user) <==>
                      ValidEncoded(written) && !EndsWithEscapedSlash(TrimRight(written))))
  {
    var base := NormalizeBase(ParsePath(written).value);
    NormalizedBaseForm(ParsePath(written).value);
    UserEndpointIs(base, user);
    PrefixPreservedIff(written);
    EscapedBaseEndsWithSlash(base);
    SameUserPath(EscapedPath(base), TrimRight(written), user);
  }

  lemma SameUserPath(escaped: bytes, prefix: bytes, user: bytes)
    requires EndsWithSlash(escaped)
    ensures UserPath(TrimSuffix(escaped), user) == UserPath(prefix, user) <==> escaped == prefix + SLASH
  {
    var a, b := UserPath(TrimSuffix(escaped), user), UserPath(prefix, user);
    assert escaped == TrimSuffix(escaped) + SLASH;
    if a == b {
      assert a[..|prefix|] == TrimSuffix(escaped) && b[..|prefix|] == prefix;
    }
  }
}
