/** Access and upload tokens: which ones are accepted, and what redaction promises about each kind. */
module Tokens {
  import opened Bytes
  import opened Redaction
  import opened Sequences

  /** The marker without its brackets. */
  const WORD: bytes := "REDACTED"

  const PAD: byte := '='

  /** The b64token alphabet of section 2.1 of RFC 6750: ALPHA, DIGIT and "-._~+/". */
  predicate TokenByte(b: byte) {
    'a' <= b <= 'z' || 'A' <= b <= 'Z' || '0' <= b <= '9' || b in "-._~+/"
  }

  /** b64token: one or more alphabet bytes, then any number of "=". */
  ghost predicate BearerGrammar(value: bytes) {
    exists n :: 0 < n <= |value| && TokenThenPadding(value, n)
  }

  predicate TokenThenPadding(value: bytes, n: int) {
    forall i :: 0 <= i < |value| ==> if i < n then TokenByte(value[i]) else value[i] == PAD
  }

  method ValidBearerToken(value: bytes) returns (valid: bool)
    ensures valid <==> BearerGrammar(value)
  {
    var body: nat := 0;
    var padding := false;
    for i := 0 to |value|
      invariant body <= i && (padding <==> body < i)
      invariant TokenThenPadding(value[..i], body)
    {
      if value[i] == PAD {
        padding := true;
        continue;
      }
      var b := value[i];
      if padding || !(('a' <= b && b <= 'z') || ('A' <= b && b <= 'Z') || ('0' <= b && b <= '9') || b in "-._~+/") {
        assert padding ==> value[..i][body] == value[body] == PAD;
        return false;
      }
      body := body + 1;
    }
    assert value[..|value|] == value;
    assert body == 0 && value != [] ==> !TokenByte(value[0]);
    return body > 0;
  }

  const DEL: byte := '\U{7F}'

  predicate HeaderByte(b: byte) {
    (b >= ' ' || b == '\t') && b != DEL
  }

  method ValidHeaderValue(value: bytes) returns (valid: bool)
    ensures valid <==> forall b :: b in value ==> HeaderByte(b)
  {
    for i := 0 to |value|
      invariant forall j :: 0 <= j < i ==> HeaderByte(value[j])
    {
      if (value[i] < ' ' && value[i] != '\t') || value[i] == '\U{7F}' {
        assert value[i] in value && !HeaderByte(value[i]);
        return false;
      }
    }
    return true;
  }

  lemma OverlapIsInside(value: bytes, word: bytes, open: byte, close: byte)
    requires value != [] && open !in value && close !in value
    requires OverlapsMarker(value, [open] + word + [close])
    ensures Contains(word, value)
  {
    var marker := [open] + word + [close];
    var d :| -|marker| < d < |value| && AgreesWithMarker(value, d, marker);
    assert value[if d >= 0 then d else 0] in value;
    assert value[if |value| - 1 - d > |word| then |word| + 1 + d else 0] in value;
    assert forall i :: 0 <= i < |word| ==> word[i] == marker[i + 1];
    assert word[-d - 1..-d - 1 + |value|] == value;
    assert OccursAt(word, value, -d - 1);
  }

  lemma InsideIsOverlap(value: bytes, word: bytes, open: byte, close: byte)
    requires value != [] && Contains(word, value)
    ensures OverlapsMarker(value, [open] + word + [close])
  {
    var marker := [open] + word + [close];
    var at :| OccursAt(word, value, at);
    forall j | 0 <= j < |value| && 0 <= j - (-at - 1) < |marker|
      ensures value[j] == marker[j - (-at - 1)]
    {
      assert word[at..at + |value|][j] == word[at + j];
    }
    assert AgreesWithMarker(value, -at - 1, marker);
  }

  /** An access token is removed from every message, whatever the other secrets, exactly when it is not part of the
      word REDACTED. */
  lemma AccessTokenNeverLeaksIff(token: bytes)
    requires BearerGrammar(token)
    ensures NeverLeaks(token, MARKER) <==> !Contains(WORD, token)
  {
    var n :| 0 < n <= |token| && TokenThenPadding(token, n);
    NeverLeaksIff(token, MARKER);
    assert MARKER == "[" + WORD + "]";
    if Contains(WORD, token) {
      InsideIsOverlap(token, WORD, '[', ']');
    } else if OverlapsMarker(token, MARKER) {
      OverlapIsInside(token, WORD, '[', ']');
    }
  }

  /** Something is removed exactly when the message contains a secret. */
  lemma {:induction false} MarkedIff(message: bytes, secrets: set<bytes>)
    ensures Mark in LeftmostLongest(message, secrets) <==>
            exists s :: s in secrets && s != [] && Contains(message, s)
    decreases |message|
  {
    if message != [] {
      var n := LongestMatch(message, secrets, |message|);
      var cells := LeftmostLongest(message, secrets);
      if n > 0 {
        assert OccursAt(message, message[..n], 0);
        assert cells[0] == Mark;
      } else {
        MarkedIff(message[1..], secrets);
        assert cells == [Kept(message[0])] + LeftmostLongest(message[1..], secrets);
        forall s | s in secrets && s != []
          ensures Contains(message, s) <==> Contains(message[1..], s)
        {
          assert s <= message <==> |s| <= |message| && message[..|s|] == s;
          OccursInTail(message, s);
        }
      }
    } else {
      forall s | s != []
        ensures !Contains(message, s)
      {
      }
    }
  }

  lemma OccursInTail(text: bytes, word: bytes)
    requires text != [] && word != [] && !(word <= text)
    ensures Contains(text, word) <==> Contains(text[1..], word)
  {
    forall at
      ensures OccursAt(text[1..], word, at - 1) <==> OccursAt(text, word, at)
    {
      if 1 <= at && at + |word| <= |text| {
        assert text[1..][at - 1..at - 1 + |word|] == text[at..at + |word|];
      }
      if at == 0 && |word| <= |text| {
        assert text[0..|word|] == text[..|word|];
      }
    }
    if Contains(text[1..], word) {
      var at :| OccursAt(text[1..], word, at);
      assert OccursAt(text, word, at + 1);
    }
  }

  /** An accepted access token is in the redacted output exactly when it is part of the word REDACTED and something
      was removed; in particular an access token that is not part of that word never survives. */
  lemma AccessTokenInOutputIff(message: bytes, secrets: set<bytes>, token: bytes)
    requires token in secrets && BearerGrammar(token)
    ensures Contains(Redacted(message, secrets, MARKER), token) <==>
            Contains(WORD, token) && exists s :: s in secrets && s != [] && Contains(message, s)
  {
    var cells := LeftmostLongest(message, secrets);
    var n :| 0 < n <= |token| && TokenThenPadding(token, n);
    RedactedIsRendered(message, secrets, MARKER);
    assert MARKER == "[" + WORD + "]";
    MarkedIff(message, secrets);
    if !Contains(WORD, token) {
      if OverlapsMarker(token, MARKER) {
        OverlapIsInside(token, WORD, '[', ']');
      }
      SecretNeverLeaks(message, secrets, token, MARKER);
    } else if Mark in cells {
      var k :| 0 <= k < |cells| && cells[k] == Mark;
      MarkerIsRendered(cells, k);
      assert OccursAt(MARKER, WORD, 1);
      ContainsTransitive(MARKER, WORD, token);
      ContainsTransitive(Redacted(message, secrets, MARKER), MARKER, token);
    } else {
      assert !Contains(message, token);
      NothingMarked(message, secrets);
    }
  }

  lemma MarkerIsRendered(cells: seq<Cell>, k: nat)
    requires k < |cells| && cells[k] == Mark
    ensures Contains(Render(cells, MARKER), MARKER)
  {
    RenderConcat(cells[..k], cells[k..], MARKER);
    assert cells == cells[..k] + cells[k..];
    var before, after := Render(cells[..k], MARKER), Render(cells[k..][1..], MARKER);
    OccursInMiddle(before, MARKER, after);
    Assoc(before, MARKER, after);
  }

  lemma {:induction false} NothingMarked(message: bytes, secrets: set<bytes>)
    requires Mark !in LeftmostLongest(message, secrets)
    ensures Redacted(message, secrets, MARKER) == message
    decreases |message|
  {
    if message != [] {
      var cells := LeftmostLongest(message, secrets);
      assert cells[0] != Mark;
      assert cells[1..] == LeftmostLongest(message[1..], secrets);
      NothingMarked(message[1..], secrets);
    }
  }

  /** A server's message that spells the upload token once both of the client's tokens are redacted. */
  ghost predicate SpelledBeside(token: bytes, access: bytes, message: bytes) {
    BearerGrammar(access) && Contains(Redacted(message, NonEmpty([access, token]), MARKER), token)
  }

  /** The two tokens a client can hold: an upload token survives for some access token and some message exactly when it
      can overlap the marker. */
  lemma UploadTokenSurvivesIff(token: bytes)
    requires token != []
    ensures (exists access, message :: SpelledBeside(token, access, message)) <==> OverlapsMarker(token, MARKER)
  {
    if OverlapsMarker(token, MARKER) {
      var message, access := OverlapLeaks(token, MARKER);
      assert forall i :: 0 <= i < |access| ==> access[i] in access;
      assert TokenThenPadding(access, |access|);
      assert NonEmpty([access, token]) == {token, access};
      assert SpelledBeside(token, access, message);
    } else {
      forall access, message
        ensures !SpelledBeside(token, access, message)
      {
        SecretNeverLeaks(message, NonEmpty([access, token]), token, MARKER);
      }
    }
  }

  /** Upload tokens may be any header value, so the guarantee does not extend to them: the upload token "]" is
      accepted, is not in the message "k", and is in the output once the access token "k" is removed. */
  lemma UploadTokenCanLeak()
    ensures var token: bytes, access: bytes := "]", "k";
            && (forall b :: b in token ==> HeaderByte(b))
            && BearerGrammar(access)
            && !Contains(access, token)
            && Contains(Redacted(access, {token, access}, MARKER), token)
            && !NeverLeaks(token, MARKER)
  {
    var token: bytes, access: bytes := "]", "k";
    assert TokenThenPadding(access, 1);
    assert access[..1] == access;
    assert Redacted(access, {token, access}, MARKER) == MARKER + Redacted([], {token, access}, MARKER) == MARKER;
    assert OccursAt(MARKER, token, 9);
    assert AgreesWithMarker(token, -9, MARKER);
    NeverLeaksIff(token, MARKER);
  }
}
