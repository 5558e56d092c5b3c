/**
 * Case-insensitive substring matching, the `icontains` lookup of the catalog
 * queries, taken over ASCII: both sides are lower-cased and the needle must
 * occur as a contiguous run of the haystack.
 */
module Text {

  function LowerChar(c: char): char
  {
    if 'A' <= c <= 'Z' then (c as int + 32) as char else c
  }

  /** ASCII lower-casing, character by character. */
  function Lower(s: string): (r: string)
    ensures |r| == |s|
    ensures forall i :: 0 <= i < |s| ==> r[i] == LowerChar(s[i])
    ensures forall i :: 0 <= i < |r| ==> !('A' <= r[i] <= 'Z')
  {
    seq(|s|, i requires 0 <= i < |s| => LowerChar(s[i]))
  }

  lemma LowerIdempotent(s: string)
    ensures Lower(Lower(s)) == Lower(s)
  {
  }

  /** `needle` occurs in `hay` starting at position `i`. */
  predicate OccursAt(hay: string, needle: string, i: int)
  {
    0 <= i && i + |needle| <= |hay| && hay[i..i + |needle|] == needle
  }

  /**
   * Substring search written as a scan from the left; its contract ties it to
   * the positional definition `OccursAt`, in both directions.
   */
  predicate Contains(hay: string, needle: string)
    ensures Contains(hay, needle) <==> exists i :: OccursAt(hay, needle, i)
    decreases |hay|
  {
    if |needle| <= |hay| && hay[..|needle|] == needle then
      assert OccursAt(hay, needle, 0);
      true
    else if |hay| == 0 then
      assert forall i :: !OccursAt(hay, needle, i);
      false
    else
      var rest := Contains(hay[1..], needle);
      assert forall i :: OccursAt(hay[1..], needle, i) <==> OccursAt(hay, needle, i + 1);
      assert forall i :: OccursAt(hay, needle, i) ==> i == 0 || OccursAt(hay[1..], needle, i - 1);
      rest
  }

  /** Django's `icontains`: case-insensitive containment. */
  predicate IContains(hay: string, needle: string)
    ensures IContains(hay, needle) <==> exists i :: OccursAt(Lower(hay), Lower(needle), i)
  {
    Contains(Lower(hay), Lower(needle))
  }

  /** The empty query is contained in every text. */
  lemma EmptyNeedleAlwaysContained(hay: string)
    ensures IContains(hay, "")
  {
    assert OccursAt(Lower(hay), Lower(""), 0);
  }

  /** Case of either side does not change the outcome of `icontains`. */
  lemma IContainsIgnoresCase(hay: string, needle: string)
    ensures IContains(Lower(hay), needle) == IContains(hay, needle)
    ensures IContains(hay, Lower(needle)) == IContains(hay, needle)
  {
    LowerIdempotent(hay);
    LowerIdempotent(needle);
  }

  /** A worked example: "phone" matches "Smartphone Pro Max" and, ignoring case, "Phone Case". */
  lemma PhoneInSmartphone()
    ensures IContains("Smartphone Pro Max", "phone")
    ensures IContains("Phone Case", "phone")
  {
    var h := Lower("Smartphone Pro Max");
    assert h[5..10] == "phone";
    assert OccursAt(h, Lower("phone"), 5);
    var c := Lower("Phone Case");
    assert c[0..5] == "phone";
    assert OccursAt(c, Lower("phone"), 0);
  }
}
