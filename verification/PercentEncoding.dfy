/** Percent-encoding of byte strings, as net/url does it (section 2.1 of RFC 3986). */
module PercentEncoding {
  import opened Results
  import opened Bytes
  import opened Sequences

  predicate Unreserved(c: byte) {
    'a' <= c <= 'z' || 'A' <= c <= 'Z' || '0' <= c <= '9' || c in "-_.~"
  }

  /** Escaping one path segment leaves only these bytes alone. */
  predicate KeptInSegment(c: byte) {
    Unreserved(c) || c in "$&+:=@"
  }

  /** Escaping segment by segment keeps the separators between them. */
  predicate KeptInSegments(c: byte) {
    KeptInSegment(c) || c == '/'
  }

  /** Escaping a whole path at once. */
  predicate KeptInPath(c: byte) {
    KeptInSegment(c) || c in "/;,"
  }

  /** Bytes that an escaped path may contain as they are. */
  predicate AllowedInEscapedPath(c: byte) {
    KeptInPath(c) || c in "!'()*[]%"
  }

  /** The characters of a path segment in section 3.3 of RFC 3986, other than percent-encoded ones. */
  predicate PathCharacter(c: byte) {
    Unreserved(c) || c in "!$&'()*+,;=" || c in ":@"
  }

  /** A segment keeps all of them but seven. An escaped path may hold all of them, and a few more. */
  lemma KeptAndAllowed(c: byte)
    ensures KeptInSegment(c) <==> PathCharacter(c) && c !in "!'()*,;"
    ensures AllowedInEscapedPath(c) <==> PathCharacter(c) || c in "/[]%"
  {
  }

  predicate ValidEncoded(s: bytes) {
    forall c :: c in s ==> AllowedInEscapedPath(c)
  }

  function HexDigit(n: int): (d: byte)
    requires 0 <= n < 16
    ensures '0' <= d <= '9' || 'A' <= d <= 'F'
  {
    if n < 10 then (n + '0' as int) as char else (n - 10 + 'A' as int) as char
  }

  function HexValue(c: byte): Option<int> {
    if '0' <= c <= '9' then Some(c as int - '0' as int)
    else if 'A' <= c <= 'F' then Some(c as int - 'A' as int + 10)
    else if 'a' <= c <= 'f' then Some(c as int - 'a' as int + 10)
    else None
  }

  function EscapeByte(c: byte, kept: byte -> bool): bytes {
    if kept(c) then [c] else ['%', HexDigit(c as int / 16), HexDigit(c as int % 16)]
  }

  function Escape(s: bytes, kept: byte -> bool): bytes {
    if s == [] then [] else EscapeByte(s[0], kept) + Escape(s[1..], kept)
  }

  /** The byte that a valid escaped text starts with, and what follows it. */
  function UnescapeFirst(s: bytes): Option<(byte, bytes)>
    requires s != []
  {
    if s[0] != '%' then Some((s[0], s[1..]))
    else if |s| < 3 || HexValue(s[1]).None? || HexValue(s[2]).None? then None
    else Some(((16 * HexValue(s[1]).value + HexValue(s[2]).value) as char, s[3..]))
  }

  /** None when a percent sign is not followed by two hexadecimal digits. */
  function Unescape(s: bytes): Option<bytes>
    decreases |s|
  {
    if s == [] then Some([])
    else
      match UnescapeFirst(s)
      case None => None
      case Some((first, rest)) =>
        match Unescape(rest)
        case None => None
        case Some(decoded) => Some([first] + decoded)
  }

  lemma UnescapeFirstExtends(a: bytes, b: bytes)
    requires a != [] && UnescapeFirst(a).Some?
    ensures UnescapeFirst(a + b) == Some((UnescapeFirst(a).value.0, UnescapeFirst(a).value.1 + b))
  {
    assert (a + b)[1..] == a[1..] + b;
    if a[0] == '%' {
      assert (a + b)[3..] == a[3..] + b;
    }
  }

  lemma {:induction false} UnescapeConcat(a: bytes, b: bytes)
    requires Unescape(a).Some?
    ensures Unescape(a + b) ==
            if Unescape(b).Some? then Some(Unescape(a).value + Unescape(b).value) else None
    decreases |a|
  {
    if a == [] {
      assert a + b == b;
      assert Unescape(b).Some? ==> [] + Unescape(b).value == Unescape(b).value;
    } else {
      var (first, rest) := UnescapeFirst(a).value;
      UnescapeFirstExtends(a, b);
      UnescapeConcat(rest, b);
      if Unescape(b).Some? {
        Assoc([first], Unescape(rest).value, Unescape(b).value);
      }
    }
  }

  lemma UnescapeFirstOfEscaped(c: byte, kept: byte -> bool, rest: bytes)
    requires !kept('%')
    ensures UnescapeFirst(EscapeByte(c, kept) + rest) == Some((c, rest))
  {
    var n := c as int;
    assert HexValue(HexDigit(n / 16)) == Some(n / 16) && HexValue(HexDigit(n % 16)) == Some(n % 16);
    assert (16 * (n / 16) + n % 16) as char == c;
  }

  /** Unescaping undoes escaping, whatever is kept, as long as the percent sign is not. */
  lemma {:induction false} UnescapeOfEscape(s: bytes, kept: byte -> bool)
    requires !kept('%')
    ensures Unescape(Escape(s, kept)) == Some(s)
  {
    if s != [] {
      UnescapeFirstOfEscaped(s[0], kept, Escape(s[1..], kept));
      UnescapeOfEscape(s[1..], kept);
      assert [s[0]] + s[1..] == s;
    }
  }

  lemma {:induction false} UnescapePlain(s: bytes)
    requires '%' !in s
    ensures Unescape(s) == Some(s)
  {
    if s != [] {
      UnescapePlain(s[1..]);
      assert [s[0]] + s[1..] == s;
    }
  }

  lemma {:induction false} EscapeConcat(a: bytes, b: bytes, kept: byte -> bool)
    ensures Escape(a + b, kept) == Escape(a, kept) + Escape(b, kept)
  {
    if a == [] {
      assert a + b == b;
      assert Escape(a, kept) + Escape(b, kept) == Escape(b, kept);
    } else {
      assert (a + b)[1..] == a[1..] + b;
      EscapeConcat(a[1..], b, kept);
      Assoc(EscapeByte(a[0], kept), Escape(a[1..], kept), Escape(b, kept));
    }
  }

  /** Escaped text contains kept bytes, percent signs, and the hexadecimal digits that section 2.1 of RFC 3986 prefers,
      those in upper case. */
  lemma {:induction false} EscapedBytes(s: bytes, kept: byte -> bool)
    ensures forall c :: c in Escape(s, kept) ==> kept(c) || c == '%' || '0' <= c <= '9' || 'A' <= c <= 'F'
  {
    if s != [] {
      EscapedBytes(s[1..], kept);
      var n := s[0] as int;
      assert EscapeByte(s[0], kept) == if kept(s[0]) then [s[0]] else ['%', HexDigit(n / 16), HexDigit(n % 16)];
    }
  }

  lemma EscapedIsValid(s: bytes, kept: byte -> bool)
    requires forall c: byte :: kept(c) ==> AllowedInEscapedPath(c)
    ensures ValidEncoded(Escape(s, kept))
  {
    EscapedBytes(s, kept);
  }

  // ---- Slashes at the end ----

  predicate EndsWithSlash(s: bytes) {
    s != [] && s[|s| - 1] == '/'
  }

  const SLASH: bytes := "/"

  /** A slash at the end of an escaped text is a slash at the end of the decoded one. */
  lemma {:induction false} UnescapeBeforeSlash(s: bytes)
    requires Unescape(s + SLASH).Some?
    ensures Unescape(s).Some? && Unescape(s + SLASH) == Some(Unescape(s).value + SLASH)
    decreases |s|
  {
    assert UnescapeFirst(SLASH) == Some(('/', SLASH[1..]));
    assert Unescape(SLASH[1..]) == Some([]);
    assert ['/'] + [] == SLASH;
    if s == [] {
      assert s + SLASH == SLASH;
      assert Unescape(s).value + SLASH == SLASH;
    } else {
      assert UnescapeFirst(s).Some?;
      UnescapeFirstExtends(s, SLASH);
      UnescapeBeforeSlash(UnescapeFirst(s).value.1);
      UnescapeConcat(s, SLASH);
    }
  }

  // ---- strings.TrimSuffix, TrimPrefix and TrimRight with "/" ----

  function TrimSuffix(s: bytes): bytes {
    if EndsWithSlash(s) then s[..|s| - 1] else s
  }

  function TrimPrefix(s: bytes): bytes {
    if s != [] && s[0] == '/' then s[1..] else s
  }

  function TrimRight(s: bytes): bytes {
    if EndsWithSlash(s) then TrimRight(s[..|s| - 1]) else s
  }

  predicate EndsWithEscapedSlash(s: bytes) {
    |s| >= 3 && s[|s| - 3] == '%' && s[|s| - 2] == '2' && s[|s| - 1] in "Ff"
  }

  lemma {:induction false} TrimRightProperties(s: bytes)
    ensures !EndsWithSlash(TrimRight(s)) && TrimRight(s) <= s
    ensures forall i :: |TrimRight(s)| <= i < |s| ==> s[i] == '/'
  {
    if EndsWithSlash(s) {
      TrimRightProperties(s[..|s| - 1]);
    }
  }

  /** What a valid escaped text without trailing slashes decodes to ends with a slash exactly when the text ends with
      an escaped one. */
  lemma {:induction false} DecodedSlashIff(s: bytes)
    requires Unescape(s).Some? && !EndsWithSlash(s)
    ensures EndsWithSlash(Unescape(s).value) <==> EndsWithEscapedSlash(s)
    decreases |s|
  {
    if s != [] {
      var (first, rest) := UnescapeFirst(s).value;
      if rest == [] {
        assert Unescape(s).value == [first];
      } else {
        DecodedSlashIff(rest);
        assert Unescape(rest).value != [];
        LastOfCons(first, Unescape(rest).value);
        EscapedSlashInRest(s, rest);
      }
    }
  }

  lemma LastOfCons(first: byte, rest: bytes)
    requires rest != []
    ensures EndsWithSlash([first] + rest) <==> EndsWithSlash(rest)
  {
  }

  lemma EscapedSlashInRest(s: bytes, rest: bytes)
    requires s != [] && UnescapeFirst(s).Some? && UnescapeFirst(s).value.1 == rest && rest != []
    requires Unescape(rest).Some?
    ensures EndsWithEscapedSlash(s) <==> EndsWithEscapedSlash(rest)
  {
    if s[0] != '%' {
      assert s == [s[0]] + rest;
      assert UnescapeFirst(rest).Some?;
    } else {
      assert s == s[..3] + rest;
    }
  }

  /** Trimming commutes with decoding exactly when the trimmed text does not end with an escaped slash. */
  lemma {:induction false} TrimRightDecodes(s: bytes)
    requires Unescape(s).Some?
    ensures Unescape(TrimRight(s)).Some?
    ensures TrimRight(Unescape(s).value) == TrimRight(Unescape(TrimRight(s)).value)
  {
    if EndsWithSlash(s) {
      var shorter := s[..|s| - 1];
      assert s == shorter + SLASH;
      UnescapeBeforeSlash(shorter);
      var decoded := Unescape(shorter).value;
      assert (decoded + SLASH)[..|decoded + SLASH| - 1] == decoded;
      TrimRightDecodes(shorter);
    }
  }
}
