/** Go strings read as bytes, and what it means for one to occur inside another.
    A byte is written as the character with the same code. */
module Bytes {
  type byte = c: char | c as int < 256

  type bytes = seq<byte>

  predicate OccursAt(text: bytes, word: bytes, at: int) {
    0 <= at && at + |word| <= |text| && text[at..at + |word|] == word
  }

  ghost predicate Contains(text: bytes, word: bytes) {
    exists at :: OccursAt(text, word, at)
  }

  lemma OccursInMiddle(before: bytes, word: bytes, after: bytes)
    ensures Contains(before + word + after, word)
  {
    var text := before + word + after;
    assert text[|before|..|before| + |word|] == word;
    assert OccursAt(text, word, |before|);
  }

  lemma ContainsTransitive(text: bytes, middle: bytes, word: bytes)
    requires Contains(text, middle) && Contains(middle, word)
    ensures Contains(text, word)
  {
    var i :| OccursAt(text, middle, i);
    var j :| OccursAt(middle, word, j);
    forall k | 0 <= k < |word|
      ensures text[i + j + k] == word[k]
    {
      assert middle[j..j + |word|][k] == middle[j + k] == text[i..i + |middle|][j + k];
    }
    assert OccursAt(text, word, i + j);
  }
}
