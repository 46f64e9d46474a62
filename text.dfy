/**
 * The case-insensitive "contains" test that the dashboards' search box applies
 * to Title, Country and City.
 */
module Text {

  /** Lower-casing of one character; only the letters A-Z are folded. */
  function LowerChar(c: char): char {
    if 'A' <= c <= 'Z' then (c as int + 32) as char else c
  }

  function Lower(s: string): string {
    seq(|s|, i requires 0 <= i < |s| => LowerChar(s[i]))
  }

  /** `needle` occurs in `hay` starting at position `i`. */
  predicate OccursAt(hay: string, needle: string, i: nat) {
    i + |needle| <= |hay| && hay[i..i + |needle|] == needle
  }

  /** Substring test, scanning `hay` from the left. */
  predicate Contains(hay: string, needle: string)
    decreases |hay|
  {
    needle <= hay || (|hay| > 0 && Contains(hay[1..], needle))
  }

  /** The scan finds the needle exactly when it occurs at some position. */
  lemma {:induction false} ContainsIffOccurs(hay: string, needle: string)
    ensures Contains(hay, needle) <==> exists i: nat :: OccursAt(hay, needle, i)
    decreases |hay|
  {
    if needle <= hay {
      assert OccursAt(hay, needle, 0);
    } else if |hay| == 0 {
      assert forall i: nat :: !OccursAt(hay, needle, i);
    } else {
      ContainsIffOccurs(hay[1..], needle);
      if Contains(hay[1..], needle) {
        var i: nat :| OccursAt(hay[1..], needle, i);
        assert hay[1..][i..i + |needle|] == hay[i + 1..i + 1 + |needle|];
        assert OccursAt(hay, needle, i + 1);
      } else {
        forall i: nat | OccursAt(hay, needle, i)
          ensures false
        {
          if i > 0 {
            assert hay[1..][i - 1..i - 1 + |needle|] == hay[i..i + |needle|];
            assert OccursAt(hay[1..], needle, i - 1);
          }
        }
      }
    }
  }

  /**
   * `str.contains(term, case=False)` for a term without pattern metacharacters:
   * the lower-cased term occurs somewhere in the lower-cased text.
   */
  predicate ContainsIgnoringCase(hay: string, term: string): (b: bool)
    ensures b <==> exists i: nat :: OccursAt(Lower(hay), Lower(term), i)
  {
    ContainsIffOccurs(Lower(hay), Lower(term));
    Contains(Lower(hay), Lower(term))
  }

  /** A term that occurs verbatim also occurs when case is ignored. */
  lemma ExactMatchIgnoringCase(hay: string, term: string)
    requires Contains(hay, term)
    ensures ContainsIgnoringCase(hay, term)
  {
    ContainsIffOccurs(hay, term);
    var i: nat :| OccursAt(hay, term, i);
    assert Lower(hay)[i..i + |term|] == Lower(term);
    assert OccursAt(Lower(hay), Lower(term), i);
  }
}
