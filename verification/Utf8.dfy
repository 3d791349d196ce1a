/** User IDs are text, and endpoint paths are the bytes of its UTF-8 encoding (RFC 3629). */
module Utf8 {
  import opened Bytes
  import opened RequestDomain
  import opened Endpoints

  function EncodeChar(c: char): (b: bytes)
    ensures b != []
  {
    var n := c as int;
    if n < 0x80 then [n as char]
    else if n < 0x800 then [(0xC0 + n / 64) as char, Continuation(n)]
    else if n < 0x1_0000 then [(0xE0 + n / 64 / 64) as char, Continuation(n / 64), Continuation(n)]
    else [(0xF0 + n / 64 / 64 / 64) as char, Continuation(n / 64 / 64), Continuation(n / 64), Continuation(n)]
  }

  function Continuation(n: int): (b: byte) {
    (0x80 + n % 64) as char
  }

  function Encode(s: string): bytes {
    if s == "" then [] else EncodeChar(s[0]) + Encode(s[1..])
  }

  predicate SafeChar(c: char) {
    c != '"' && c != '\\' && !IsControl(c)
  }

  lemma SafeCharBytes(c: char)
    ensures SafeUser(EncodeChar(c)) <==> SafeChar(c)
    ensures var b := EncodeChar(c); b[|b| - 1] != '\U{C2}'
  {
    var n, b := c as int, EncodeChar(c);
    if n < 0x80 {
      assert b[0] == c;
    } else if n < 0x800 {
      assert b[0] == '\U{C2}' <==> n < 0xC0;
      assert n < 0xC0 ==> (b[1] <= '\U{9F}' <==> n < 0xA0);
      assert SafeUser(b) <==> !(b[0] == '\U{C2}' && b[1] <= '\U{9F}');
    }
  }

  lemma SafeConcat(a: bytes, b: bytes)
    requires a != [] && a[|a| - 1] != '\U{C2}'
    ensures SafeUser(a + b) <==> SafeUser(a) && SafeUser(b)
  {
    var s := a + b;
    assert forall i :: 0 <= i < |a| ==> s[i] == a[i];
    assert forall i :: 0 <= i < |b| ==> s[|a| + i] == b[i];
  }

  /** On the bytes of a text, the check of user IDs is the check of the text: no quote, no backslash, no control
      character. */
  lemma {:induction false} SafeUserIff(s: string)
    ensures SafeUser(Encode(s)) <==> SafeID(s)
  {
    if s != "" {
      SafeCharBytes(s[0]);
      SafeConcat(EncodeChar(s[0]), Encode(s[1..]));
      SafeUserIff(s[1..]);
      assert s == [s[0]] + s[1..];
      assert SafeID(s) ==> SafeChar(s[0]) && SafeID(s[1..]) by {
        assert s[0] in s && forall c :: c in s[1..] ==> c in s;
      }
    }
  }

  lemma SameFirstChar(c: char, d: char, a: bytes, b: bytes)
    requires EncodeChar(c) + a == EncodeChar(d) + b
    ensures c == d && a == b
  {
    var x, y := EncodeChar(c), EncodeChar(d);
    assert (x + a)[0] == x[0] == y[0];
    assert |x| == |y|;
    assert (x + a)[..|x|] == x && (y + b)[..|y|] == y;
    assert (x + a)[|x|..] == a && (y + b)[|y|..] == b;
    assert x == y;
    SameEncoding(c, d);
  }

  lemma SameEncoding(c: char, d: char)
    requires EncodeChar(c) == EncodeChar(d)
    ensures c == d
  {
    CodePointOf(c);
    CodePointOf(d);
  }

  function CodePoint(b: bytes): int {
    match |b|
    case 1 => b[0] as int
    case 2 => (b[0] as int - 0xC0) * 64 + Payload(b[1])
    case 3 => ((b[0] as int - 0xE0) * 64 + Payload(b[1])) * 64 + Payload(b[2])
    case 4 => (((b[0] as int - 0xF0) * 64 + Payload(b[1])) * 64 + Payload(b[2])) * 64 + Payload(b[3])
    case _ => -1
  }

  function Payload(b: byte): int {
    b as int - 0x80
  }

  /** The code point can be read back from its bytes. */
  lemma CodePointOf(c: char)
    ensures CodePoint(EncodeChar(c)) == c as int
  {
    var n := c as int;
    assert n == n / 64 * 64 + n % 64;
    assert n / 64 == n / 64 / 64 * 64 + n / 64 % 64;
    assert n / 64 / 64 == n / 64 / 64 / 64 * 64 + n / 64 / 64 % 64;
  }

  /** Distinct texts have distinct encodings. */
  lemma {:induction false} EncodeInjective(s: string, t: string)
    ensures Encode(s) == Encode(t) <==> s == t
  {
    if Encode(s) == Encode(t) && s != "" && t != "" {
      SameFirstChar(s[0], t[0], Encode(s[1..]), Encode(t[1..]));
      EncodeInjective(s[1..], t[1..]);
      assert s == [s[0]] + s[1..] && t == [t[0]] + t[1..];
    }
  }

  /** Users as text: which of them a base accepts, and that accepted ones have different endpoints. */
  lemma TextUserEndpoints(base: URL, user: string, other: string)
    requires BaseForm(base)
    ensures UserPoliciesEndpoint(base, Encode(user)).Ok? <==>
            SafeID(user) && user != "" && user != "." && user != ".."
    ensures var a, b := UserPoliciesEndpoint(base, Encode(user)), UserPoliciesEndpoint(base, Encode(other));
            a.Ok? && b.Ok? ==> (EscapedPath(a.value) == EscapedPath(b.value) <==> user == other)
  {
    SafeUserIff(user);
    SafeUserIff(other);
    DotTexts(user);
    UserEndpointIs(base, Encode(user));
    UserEndpointIs(base, Encode(other));
    EncodeInjective(user, other);
    if UserPoliciesEndpoint(base, Encode(user)).Ok? && UserPoliciesEndpoint(base, Encode(other)).Ok? {
      UserEndpointsDistinct(base, Encode(user), Encode(other));
    }
  }

  lemma DotTexts(user: string)
    ensures Encode(user) == "" <==> user == ""
    ensures Encode(user) == "." <==> user == "."
    ensures Encode(user) == ".." <==> user == ".."
  {
    var dot: string, dots: string := ".", "..";
    assert dots[1..] == dot && dot[1..] == "";
    assert Encode(dot) == "." && Encode(dots) == "..";
    EncodeInjective(user, dot);
    EncodeInjective(user, dots);
  }
}
