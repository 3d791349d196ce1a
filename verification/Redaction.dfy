/** redactSecrets: removing configured credentials from server messages. */
module Redaction {
  import opened Bytes
  import opened Sequences

  const MARKER: bytes := "[REDACTED]"

  // ---- strings.NewReplacer, by its documented meaning ----

  /** The first pattern, in argument order, that the text starts with; [] when there is none. */
  function FirstMatch(text: bytes, patterns: seq<bytes>): (p: bytes)
    ensures |p| <= |text|
  {
    if patterns == [] then []
    else if patterns[0] <= text then patterns[0]
    else FirstMatch(text, patterns[1..])
  }

  /** Replacements happen in target order, without overlaps: `out` extended by the replaced text. */
  function Replaced(text: bytes, patterns: seq<bytes>, marker: bytes, out: bytes): bytes
    decreases |text|
  {
    if text == [] then out
    else
      var p := FirstMatch(text, patterns);
      if p != [] then Replaced(text[|p|..], patterns, marker, out + marker)
      else Replaced(text[1..], patterns, marker, out + [text[0]])
  }

  // ---- Leftmost-longest replacement of a set of secrets ----

  /** The largest length up to n at which a prefix of the text is a secret; 0 when there is none. */
  function LongestMatch(text: bytes, secrets: set<bytes>, n: nat): (len: nat)
    requires n <= |text|
    ensures len <= n
    ensures len > 0 ==> text[..len] in secrets
    ensures forall k :: len < k <= n ==> text[..k] !in secrets
  {
    if n == 0 then 0
    else if text[..n] in secrets then n
    else LongestMatch(text, secrets, n - 1)
  }

  /** Leftmost-longest replacement. The theory holds for any marker; MARKER is the one the client uses. */
  function Redacted(text: bytes, secrets: set<bytes>, marker: bytes): bytes
    decreases |text|
  {
    if text == [] then []
    else
      var n := LongestMatch(text, secrets, |text|);
      if n > 0 then marker + Redacted(text[n..], secrets, marker)
      else [text[0]] + Redacted(text[1..], secrets, marker)
  }

  function NonEmpty(secrets: seq<bytes>): set<bytes> {
    set s | s in secrets && s != []
  }

  ghost predicate LongestFirst(values: seq<bytes>) {
    forall i, j :: 0 <= i < j < |values| ==> |values[i]| >= |values[j]|
  }

  // ---- The implementation ----

  /** sort.Slice with the length comparison: in place, and not stable. Only the order and the contents are promised. */
  method SortByLength(a: array<bytes>)
    modifies a
    ensures LongestFirst(a[..])
    ensures multiset(a[..]) == multiset(old(a[..]))
  {
    for i := 0 to a.Length
      invariant forall j, k :: 0 <= j < k < a.Length && j < i ==> |a[j]| >= |a[k]|
      invariant multiset(a[..]) == multiset(old(a[..]))
    {
      var best := i;
      for j := i to a.Length
        invariant i <= best < a.Length
        invariant forall k :: i <= k < j ==> |a[best]| >= |a[k]|
      {
        if |a[j]| > |a[best]| {
          best := j;
        }
      }
      a[i], a[best] := a[best], a[i];
    }
  }

  method Replace(text: bytes, patterns: seq<bytes>, marker: bytes) returns (out: bytes)
    ensures out == Replaced(text, patterns, marker, [])
  {
    out := [];
    var rest := text;
    ghost var whole := Replaced(text, patterns, marker, []);
    while rest != []
      invariant Replaced(rest, patterns, marker, out) == whole
      decreases |rest|
    {
      var p := FirstMatch(rest, patterns);
      if p != [] {
        out := out + marker;
        rest := rest[|p|..];
      } else {
        out := out + [rest[0]];
        rest := rest[1..];
      }
    }
  }

  method RedactSecrets(message: bytes, secrets: seq<bytes>) returns (out: bytes)
    ensures out == Redacted(message, NonEmpty(secrets), MARKER)
  {
    var values: seq<bytes> := [];
    var seen: set<bytes> := {};
    for i := 0 to |secrets|
      invariant seen == NonEmpty(secrets[..i])
      invariant forall v :: v in values <==> v in seen
    {
      assert secrets[..i + 1] == secrets[..i] + [secrets[i]];
      var value := secrets[i];
      if value == [] {
        continue;
      }
      if value !in seen {
        values := values + [value];
        seen := seen + {value};
      }
    }
    assert secrets[..|secrets|] == secrets;
    var sorted := new bytes[|values|](i requires 0 <= i < |values| => values[i]);
    assert sorted[..] == values;
    SortByLength(sorted);
    forall v ensures v in sorted[..] <==> v in seen {
      assert v in multiset(sorted[..]) <==> v in multiset(values);
    }
    if |values| == 0 {
      NothingToRedact(message, NonEmpty(secrets), MARKER);
      return message;
    }
    out := Replace(message, sorted[..], MARKER);
    ReplacedIsRedacted(message, sorted[..], seen, MARKER, []);
  }

  lemma {:induction false} NothingToRedact(message: bytes, secrets: set<bytes>, marker: bytes)
    requires secrets == {}
    ensures Redacted(message, secrets, marker) == message
  {
    if message != [] {
      NothingToRedact(message[1..], secrets, marker);
    }
  }

  lemma {:induction false} FirstMatchOfLongestFirst(text: bytes, patterns: seq<bytes>)
    requires LongestFirst(patterns) && [] !in patterns
    ensures var p := FirstMatch(text, patterns);
            if p == [] then forall q :: q in patterns ==> !(q <= text)
            else p in patterns && p <= text && forall q :: q in patterns && q <= text ==> |q| <= |p|
  {
    if patterns != [] {
      assert patterns == [patterns[0]] + patterns[1..];
      FirstMatchOfLongestFirst(text, patterns[1..]);
    }
  }

  lemma MatchesAgree(text: bytes, patterns: seq<bytes>, secrets: set<bytes>)
    requires LongestFirst(patterns) && [] !in patterns
    requires forall v :: v in patterns <==> v in secrets
    ensures |FirstMatch(text, patterns)| == LongestMatch(text, secrets, |text|)
  {
    FirstMatchOfLongestFirst(text, patterns);
    var p := FirstMatch(text, patterns);
    var n := LongestMatch(text, secrets, |text|);
    if n > 0 {
      assert text[..n] in patterns && text[..n] <= text;
    }
    if p != [] {
      assert text[..|p|] == p;
    }
  }

  /** Argument order over patterns sorted by length is leftmost-longest: ties in the unstable sort cannot matter,
      because two different patterns of one length never match at the same place. */
  lemma {:induction false} ReplacedIsRedacted(text: bytes, patterns: seq<bytes>, secrets: set<bytes>, marker: bytes,
                                              out: bytes)
    requires LongestFirst(patterns) && [] !in patterns
    requires forall v :: v in patterns <==> v in secrets
    ensures Replaced(text, patterns, marker, out) == out + Redacted(text, secrets, marker)
    decreases |text|
  {
    if text != [] {
      MatchesAgree(text, patterns, secrets);
      var n := LongestMatch(text, secrets, |text|);
      if n > 0 {
        ReplacedIsRedacted(text[n..], patterns, secrets, marker, out + marker);
        Assoc(out, marker, Redacted(text[n..], secrets, marker));
      } else {
        ReplacedIsRedacted(text[1..], patterns, secrets, marker, out + [text[0]]);
        Assoc(out, [text[0]], Redacted(text[1..], secrets, marker));
      }
    }
  }

  // ---- What the output can contain ----

  /** One unit of output: a byte copied from the message, or a marker standing for a removed secret. */
  datatype Cell = Kept(b: byte) | Mark

  function Render(cells: seq<Cell>, marker: bytes): bytes {
    if cells == [] then []
    else (if cells[0].Mark? then marker else [cells[0].b]) + Render(cells[1..], marker)
  }

  function KeptCells(text: bytes): seq<Cell> {
    seq(|text|, i requires 0 <= i < |text| => Kept(text[i]))
  }

  /** The redacted text, cell by cell. */
  function LeftmostLongest(text: bytes, secrets: set<bytes>): seq<Cell>
    decreases |text|
  {
    if text == [] then []
    else
      var n := LongestMatch(text, secrets, |text|);
      if n > 0 then [Mark] + LeftmostLongest(text[n..], secrets)
      else [Kept(text[0])] + LeftmostLongest(text[1..], secrets)
  }

  lemma {:induction false} RedactedIsRendered(text: bytes, secrets: set<bytes>, marker: bytes)
    ensures Redacted(text, secrets, marker) == Render(LeftmostLongest(text, secrets), marker)
    decreases |text|
  {
    if text != [] {
      var n := LongestMatch(text, secrets, |text|);
      var next := if n > 0 then n else 1;
      RedactedIsRendered(text[next..], secrets, marker);
      assert LeftmostLongest(text, secrets)[1..] == LeftmostLongest(text[next..], secrets);
    }
  }

  /** Some run of kept bytes of the output spells the word from cell `at` on. */
  predicate SpelledAt(cells: seq<Cell>, word: bytes, at: int) {
    0 <= at && at + |word| <= |cells| && cells[at..at + |word|] == KeptCells(word)
  }

  lemma SpelledInTail(cells: seq<Cell>, word: bytes, at: nat)
    requires cells != []
    ensures SpelledAt(cells[1..], word, at) <==> SpelledAt(cells, word, at + 1)
  {
    if at + |word| <= |cells| - 1 {
      assert cells[1..][at..at + |word|] == cells[at + 1..at + 1 + |word|];
    }
  }

  /** No run of kept bytes, however long, contains a secret. */
  lemma {:induction false} KeptRunsHideSecrets(message: bytes, secrets: set<bytes>, secret: bytes, at: int)
    requires secret in secrets && secret != []
    ensures !SpelledAt(LeftmostLongest(message, secrets), secret, at)
    decreases |message|
  {
    var cells := LeftmostLongest(message, secrets);
    if SpelledAt(cells, secret, at) {
      var n := LongestMatch(message, secrets, |message|);
      if at == 0 {
        assert cells[0] == cells[0..|secret|][0];
        KeptPrefixIsMessage(message, secrets, secret);
        MatchIsMarked(message, secrets, secret);
      } else {
        var rest := message[if n > 0 then n else 1..];
        assert cells[1..] == LeftmostLongest(rest, secrets);
        SpelledInTail(cells, secret, at - 1);
        KeptRunsHideSecrets(rest, secrets, secret, at - 1);
      }
    }
  }

  lemma MatchIsMarked(message: bytes, secrets: set<bytes>, secret: bytes)
    requires secret in secrets && secret != [] && secret <= message
    ensures LeftmostLongest(message, secrets) != [] && LeftmostLongest(message, secrets)[0] == Mark
  {
    assert message[..|secret|] == secret;
  }

  lemma {:induction false} KeptPrefixIsMessage(message: bytes, secrets: set<bytes>, word: bytes)
    requires SpelledAt(LeftmostLongest(message, secrets), word, 0)
    ensures word <= message
  {
    if word != [] {
      var cells := LeftmostLongest(message, secrets);
      assert cells[0] == cells[0..|word|][0] == Kept(word[0]);
      assert cells[1..] == LeftmostLongest(message[1..], secrets);
      assert cells[1..][0..|word| - 1] == cells[0..|word|][1..] == KeptCells(word[1..]);
      KeptPrefixIsMessage(message[1..], secrets, word[1..]);
    }
  }

  /** The word, laid over a marker that starts d bytes after the word does, agrees with it wherever both have a byte. */
  predicate AgreesWithMarker(word: bytes, d: int, marker: bytes) {
    forall j :: 0 <= j < |word| && 0 <= j - d < |marker| ==> word[j] == marker[j - d]
  }

  /** The word can share at least one byte with a marker. */
  ghost predicate OverlapsMarker(word: bytes, marker: bytes) {
    exists d :: -|marker| < d < |word| && AgreesWithMarker(word, d, marker)
  }

  lemma PrefixAcrossMarker(word: bytes, from: nat, tail: bytes, marker: bytes)
    requires marker != [] && from < |word| && word[from..] <= marker + tail
    ensures OverlapsMarker(word, marker)
  {
    forall j: int | from <= j < |word| && j - from < |marker|
      ensures word[j] == marker[j - from]
    {
      assert word[from..][j - from] == (marker + tail)[j - from];
    }
    assert AgreesWithMarker(word, from, marker);
  }

  lemma OccursAcrossMarker(word: bytes, at: int, tail: bytes, marker: bytes)
    requires word != [] && at < |marker| && OccursAt(marker + tail, word, at)
    ensures OverlapsMarker(word, marker)
  {
    forall j: int | 0 <= j < |word| && 0 <= j + at < |marker|
      ensures word[j] == marker[j + at]
    {
      assert (marker + tail)[at..at + |word|][j] == (marker + tail)[at + j];
    }
    assert AgreesWithMarker(word, -at, marker);
  }

  lemma {:induction false} RenderedPrefix(cells: seq<Cell>, word: bytes, from: nat, marker: bytes)
    requires marker != [] && from <= |word| && !OverlapsMarker(word, marker)
    requires word[from..] <= Render(cells, marker)
    ensures SpelledAt(cells, word[from..], 0)
    decreases |cells|
  {
    if from < |word| {
      if cells[0].Mark? {
        PrefixAcrossMarker(word, from, Render(cells[1..], marker), marker);
      } else {
        assert Render(cells, marker)[1..] == Render(cells[1..], marker);
        assert word[from..][1..] == word[from + 1..];
        RenderedPrefix(cells[1..], word, from + 1, marker);
        assert cells[0..|word| - from] == [cells[0]] + cells[1..][0..|word| - from - 1];
        assert KeptCells(word[from..]) == [Kept(word[from])] + KeptCells(word[from + 1..]);
      }
    }
  }

  lemma OccursAfterHead(head: bytes, tail: bytes, word: bytes, at: int)
    requires at >= |head| && OccursAt(head + tail, word, at)
    ensures OccursAt(tail, word, at - |head|)
  {
    assert tail[at - |head|..at - |head| + |word|] == (head + tail)[at..at + |word|];
  }

  /** A word that cannot overlap a marker is in the output only where the kept bytes spell it. */
  lemma {:induction false} OccurrenceIsKept(cells: seq<Cell>, word: bytes, at: int, marker: bytes) returns (cell: int)
    requires marker != [] && word != [] && !OverlapsMarker(word, marker)
    requires OccursAt(Render(cells, marker), word, at)
    ensures SpelledAt(cells, word, cell)
    decreases |cells|
  {
    var head := if cells[0].Mark? then marker else [cells[0].b];
    var tail := Render(cells[1..], marker);
    assert Render(cells, marker) == head + tail;
    if at >= |head| {
      OccursAfterHead(head, tail, word, at);
      cell := OccurrenceIsKept(cells[1..], word, at - |head|, marker);
      SpelledInTail(cells, word, cell);
      cell := cell + 1;
    } else if cells[0].Mark? {
      OccursAcrossMarker(word, at, tail, marker);
    } else {
      assert word[0..] == word;
      RenderedPrefix(cells, word, 0, marker);
      cell := 0;
    }
  }

  /** The redaction guarantee. Whatever the message and the other secrets are, a secret that cannot overlap the
      marker occurs nowhere in the output. */
  lemma SecretNeverLeaks(message: bytes, secrets: set<bytes>, secret: bytes, marker: bytes)
    requires marker != [] && secret in secrets && secret != [] && !OverlapsMarker(secret, marker)
    ensures !Contains(Redacted(message, secrets, marker), secret)
  {
    RedactedIsRendered(message, secrets, marker);
    if Contains(Redacted(message, secrets, marker), secret) {
      var at :| OccursAt(Redacted(message, secrets, marker), secret, at);
      var cell := OccurrenceIsKept(LeftmostLongest(message, secrets), secret, at, marker);
      KeptRunsHideSecrets(message, secrets, secret, cell);
    }
  }

  // ---- Exactly which secrets are safe ----

  ghost predicate NeverLeaks(secret: bytes, marker: bytes) {
    forall message: bytes, others: set<bytes> :: !Contains(Redacted(message, others + {secret}, marker), secret)
  }

  function Repeat(b: byte, n: nat): bytes {
    seq(n, _ => b)
  }

  lemma {:induction false} UnmatchedTextIsKept(text: bytes, rest: bytes, secrets: set<bytes>)
    requires forall i :: 0 <= i < |text| ==> LongestMatch((text + rest)[i..], secrets, |text + rest| - i) == 0
    ensures LeftmostLongest(text + rest, secrets) == KeptCells(text) + LeftmostLongest(rest, secrets)
  {
    if text == [] {
      assert text + rest == rest;
    } else {
      var all := text + rest;
      assert all[0..] == all;
      assert all[1..] == text[1..] + rest;
      forall i | 0 <= i < |text| - 1
        ensures LongestMatch((text[1..] + rest)[i..], secrets, |text[1..] + rest| - i) == 0
      {
        assert (text[1..] + rest)[i..] == all[i + 1..];
      }
      UnmatchedTextIsKept(text[1..], rest, secrets);
      assert KeptCells(text) == [Kept(text[0])] + KeptCells(text[1..]);
      Assoc([Kept(text[0])], KeptCells(text[1..]), LeftmostLongest(rest, secrets));
    }
  }

  lemma {:induction false} RenderConcat(a: seq<Cell>, b: seq<Cell>, marker: bytes)
    ensures Render(a + b, marker) == Render(a, marker) + Render(b, marker)
  {
    if a == [] {
      assert a + b == b;
    } else {
      assert (a + b)[1..] == a[1..] + b;
      RenderConcat(a[1..], b, marker);
    }
  }

  lemma {:induction false} RenderKept(text: bytes, marker: bytes)
    ensures Render(KeptCells(text), marker) == text
  {
    if text != [] {
      assert KeptCells(text)[1..] == KeptCells(text[1..]);
      RenderKept(text[1..], marker);
    }
  }

  lemma UnmatchedText(text: bytes, secrets: set<bytes>)
    requires forall i :: 0 <= i < |text| ==> LongestMatch(text[i..], secrets, |text| - i) == 0
    ensures LeftmostLongest(text, secrets) == KeptCells(text)
  {
    assert text + [] == text;
    UnmatchedTextIsKept(text, [], secrets);
  }

  /** Text without matches, then one match, then text without matches. */
  lemma OneMatch(before: bytes, hit: bytes, after: bytes, secrets: set<bytes>, marker: bytes)
    requires hit != []
    requires var text := before + (hit + after);
             forall i :: 0 <= i < |before| ==> LongestMatch(text[i..], secrets, |text| - i) == 0
    requires LongestMatch(hit + after, secrets, |hit + after|) == |hit|
    requires forall i :: 0 <= i < |after| ==> LongestMatch(after[i..], secrets, |after| - i) == 0
    ensures Redacted(before + hit + after, secrets, marker) == before + marker + after
  {
    var tail := [Mark] + KeptCells(after);
    assert LeftmostLongest(hit + after, secrets) == tail by {
      UnmatchedText(after, secrets);
      assert (hit + after)[|hit|..] == after;
    }
    assert LeftmostLongest(before + (hit + after), secrets) == KeptCells(before) + tail by {
      UnmatchedTextIsKept(before, hit + after, secrets);
    }
    assert before + hit + after == before + (hit + after);
    RedactedIsRendered(before + hit + after, secrets, marker);
    RenderAround(before, after, marker);
  }

  lemma RenderAround(before: bytes, after: bytes, marker: bytes)
    ensures Render(KeptCells(before) + ([Mark] + KeptCells(after)), marker) == before + marker + after
  {
    var tail := [Mark] + KeptCells(after);
    RenderConcat(KeptCells(before), tail, marker);
    RenderKept(before, marker);
    assert tail[1..] == KeptCells(after);
    RenderKept(after, marker);
    assert before + (marker + after) == before + marker + after;
  }

  /** A run of one byte, longer than the secret and foreign to its ends, is removed on its own. */
  lemma RedactedAround(before: bytes, other: bytes, after: bytes, secret: bytes, marker: bytes)
    requires |before| + |after| < |secret| < |other|
    requires forall i :: 0 <= i < |other| ==> other[i] == other[0]
    requires other[0] != secret[0] && other[0] != secret[|secret| - 1]
    requires before != [] ==> other[0] != before[|before| - 1]
    ensures Redacted(before + other + after, {secret, other}, marker) == before + marker + after
  {
    var secrets := {secret, other};
    var text := before + (other + after);
    forall i | 0 <= i < |before|
      ensures LongestMatch(text[i..], secrets, |text| - i) == 0
    {
      forall n | 0 < n <= |text| - i
        ensures text[i..][..n] !in secrets
      {
        var word := text[i..][..n];
        if n == |secret| {
          assert word[n - 1] == text[i + n - 1] == other[0];
        } else if n == |other| {
          assert word[|before| - 1 - i] == text[|before| - 1] == before[|before| - 1];
        }
      }
    }
    assert (other + after)[..|other|] == other;
    OneMatch(before, other, after, secrets, marker);
  }

  lemma NotSpelledAround(before: bytes, other: bytes, after: bytes, secret: bytes)
    requires |before| + |after| < |secret| < |other|
    requires forall i :: 0 <= i < |other| ==> other[i] == other[0]
    requires other[0] != secret[0] && other[0] != secret[|secret| - 1]
    ensures !Contains(before + other + after, secret)
  {
    var text := before + other + after;
    forall i
      ensures !OccursAt(text, secret, i)
    {
      if 0 <= i <= |text| - |secret| {
        var word := text[i..i + |secret|];
        assert word[0] == text[i] && word[|secret| - 1] == text[i + |secret| - 1];
        assert i >= |before| ==> text[i] == other[i - |before|];
        assert i < |before| ==> text[i + |secret| - 1] == other[i + |secret| - 1 - |before|];
      }
    }
  }

  function FreshByte(a: byte, b: byte, c: byte): (d: byte)
    ensures d != a && d != b && d != c && '0' <= d <= '9'
  {
    if '0' !in {a, b, c} then '0' else if '1' !in {a, b, c} then '1' else if '2' !in {a, b, c} then '2' else '3'
  }

  function Before(secret: bytes, d: int): bytes
    requires d < |secret|
  {
    if d > 0 then secret[..d] else []
  }

  function After(secret: bytes, d: int, marker: bytes): bytes
    requires -|marker| < d
  {
    if d + |marker| < |secret| then secret[d + |marker|..] else []
  }

  lemma SpelledAcrossMarker(secret: bytes, d: int, marker: bytes)
    requires marker != [] && -|marker| < d < |secret| && AgreesWithMarker(secret, d, marker)
    ensures Contains(Before(secret, d) + marker + After(secret, d, marker), secret)
  {
    var out := Before(secret, d) + marker + After(secret, d, marker);
    var at := if d < 0 then -d else 0;
    forall j | 0 <= j < |secret|
      ensures out[at + j] == secret[j]
    {
      var k := j - d;
      assert 0 <= k < |marker| ==> out[at + j] == marker[k];
    }
    assert OccursAt(out, secret, at);
  }

  /** A secret that can overlap the marker is not protected: removing some other secret, a number, can spell it. */
  lemma OverlapLeaks(secret: bytes, marker: bytes) returns (message: bytes, other: bytes)
    requires marker != [] && secret != [] && OverlapsMarker(secret, marker)
    ensures other != [] && forall b :: b in other ==> '0' <= b <= '9'
    ensures !Contains(message, secret)
    ensures Contains(Redacted(message, {secret, other}, marker), secret)
  {
    var d :| -|marker| < d < |secret| && AgreesWithMarker(secret, d, marker);
    var before, after := Before(secret, d), After(secret, d, marker);
    var c := FreshByte(secret[0], secret[|secret| - 1], secret[if d > 0 then d - 1 else 0]);
    other := Repeat(c, |secret| + 1);
    message := before + other + after;
    assert Contains(Redacted(message, {secret, other}, marker), secret) by {
      RedactedAround(before, other, after, secret, marker);
      SpelledAcrossMarker(secret, d, marker);
    }
    NotSpelledAround(before, other, after, secret);
  }

  /** The exact guarantee: a secret is removed from every message, whatever the other secrets, if and only if it
      cannot overlap the marker. */
  lemma NeverLeaksIff(secret: bytes, marker: bytes)
    requires marker != [] && secret != []
    ensures NeverLeaks(secret, marker) <==> !OverlapsMarker(secret, marker)
  {
    if OverlapsMarker(secret, marker) {
      var message, other := OverlapLeaks(secret, marker);
      assert {other} + {secret} == {secret, other};
      assert Contains(Redacted(message, {other} + {secret}, marker), secret);
    } else {
      forall message: bytes, others: set<bytes>
        ensures !Contains(Redacted(message, others + {secret}, marker), secret)
      {
        SecretNeverLeaks(message, others + {secret}, secret, marker);
      }
    }
  }
}
