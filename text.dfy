/**
 * Bytes, and Python's substring operator `needle in haystack` on `str`,
 * modelled by `Contains`. (The test `bytes.startswith` is the sequence
 * prefix `<=` of Dafny and needs no definition.)
 */
module Text {

  newtype byte = b: int | 0 <= b < 256

  type Bytes = seq<byte>

  /** `needle` occurs in `hay` starting at index `i`. */
  predicate OccursAt(needle: string, hay: string, i: nat)
  {
    i + |needle| <= |hay| && hay[i..i + |needle|] == needle
  }

  /** Python's `needle in hay` for strings, scanning left to right. */
  function Contains(needle: string, hay: string): bool
    decreases |hay|
  {
    if needle <= hay then true
    else if |hay| == 0 then false
    else Contains(needle, hay[1..])
  }

  lemma {:induction false} OccurrenceIsFound(needle: string, hay: string, i: nat)
    requires OccursAt(needle, hay, i)
    ensures Contains(needle, hay)
    decreases i
  {
    if i == 0 {
      assert hay[..|needle|] == needle;
    } else {
      assert hay[1..][i - 1..i - 1 + |needle|] == hay[i..i + |needle|];
      OccurrenceIsFound(needle, hay[1..], i - 1);
    }
  }

  lemma {:induction false} FoundIsAnOccurrence(needle: string, hay: string) returns (i: nat)
    requires Contains(needle, hay)
    ensures OccursAt(needle, hay, i)
    decreases |hay|
  {
    if needle <= hay {
      i := 0;
      assert hay[..|needle|] == needle;
    } else {
      var j := FoundIsAnOccurrence(needle, hay[1..]);
      assert hay[1..][j..j + |needle|] == hay[j + 1..j + 1 + |needle|];
      i := j + 1;
    }
  }

  /** `Contains` means exactly: there is a position where `needle` occurs. */
  lemma ContainsMeansOccurs(needle: string, hay: string)
    ensures Contains(needle, hay) <==> exists i: nat :: OccursAt(needle, hay, i)
  {
    if Contains(needle, hay) {
      var i := FoundIsAnOccurrence(needle, hay);
    }
    if exists i: nat :: OccursAt(needle, hay, i) {
      var i: nat :| OccursAt(needle, hay, i);
      OccurrenceIsFound(needle, hay, i);
    }
  }

  /** An occurrence in the left part of a concatenation is an occurrence in the whole. */
  lemma ContainsInLeft(needle: string, left: string, right: string)
    requires Contains(needle, left)
    ensures Contains(needle, left + right)
  {
    var i := FoundIsAnOccurrence(needle, left);
    assert (left + right)[i..i + |needle|] == left[i..i + |needle|];
    OccurrenceIsFound(needle, left + right, i);
  }

  /** An occurrence in the right part of a concatenation is an occurrence in the whole. */
  lemma ContainsInRight(needle: string, left: string, right: string)
    requires Contains(needle, right)
    ensures Contains(needle, left + right)
  {
    var i := FoundIsAnOccurrence(needle, right);
    assert (left + right)[|left| + i..|left| + i + |needle|] == right[i..i + |needle|];
    OccurrenceIsFound(needle, left + right, |left| + i);
  }
}
