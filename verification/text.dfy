/** The two string operations every query of the reader is built from:
    `toLowerCase`, restricted to ASCII, and `includes`. */
module Text {

  predicate IsUpper(c: char) {
    'A' <= c <= 'Z'
  }

  /** True when lowering has nothing left to change in `s`. */
  predicate IsLowerCase(s: string) {
    forall i :: 0 <= i < |s| ==> !IsUpper(s[i])
  }

  function LowerChar(c: char): (r: char)
    ensures !IsUpper(r)
    ensures !IsUpper(c) ==> r == c
  {
    if IsUpper(c) then (c as int - 'A' as int + 'a' as int) as char else c
  }

  /** `s.toLowerCase()` on ASCII: each letter A..Z becomes a..z, every other
      character is kept, and the length does not change. */
  function Lower(s: string): (r: string)
    ensures |r| == |s|
    ensures forall i :: 0 <= i < |s| ==> r[i] == LowerChar(s[i])
    ensures IsLowerCase(r)
  {
    if s == [] then [] else [LowerChar(s[0])] + Lower(s[1..])
  }

  /** Lowering a string that is already lower case gives it back. */
  lemma LowerKeepsLowerCase(s: string)
    requires IsLowerCase(s)
    ensures Lower(s) == s
  {
  }

  /** Lowering twice is lowering once. */
  lemma LowerIdempotent(s: string)
    ensures Lower(Lower(s)) == Lower(s)
  {
    LowerKeepsLowerCase(Lower(s));
  }

  /** `needle` sits in `hay` starting at offset `i`. */
  predicate OccursAt(hay: string, needle: string, i: int) {
    0 <= i && i + |needle| <= |hay| && hay[i..i + |needle|] == needle
  }

  /** `hay.includes(needle)`: a prefix test at each offset, left to right. */
  function Includes(hay: string, needle: string): bool
    decreases |hay|
  {
    |needle| <= |hay| && (hay[..|needle|] == needle || Includes(hay[1..], needle))
  }

  /** The scan of `Includes` finds an occurrence exactly when there is one. */
  lemma {:induction false} IncludesIff(hay: string, needle: string)
    ensures Includes(hay, needle) <==> exists i :: OccursAt(hay, needle, i)
    decreases |hay|
  {
    if |needle| > |hay| {
      assert forall i :: !OccursAt(hay, needle, i);
    } else if hay[..|needle|] == needle {
      assert OccursAt(hay, needle, 0);
    } else {
      var tail := hay[1..];
      IncludesIff(tail, needle);
      assert !OccursAt(hay, needle, 0);
      forall i | OccursAt(tail, needle, i)
        ensures OccursAt(hay, needle, i + 1)
      {
        assert hay[i + 1..i + 1 + |needle|] == tail[i..i + |needle|];
      }
      forall i | OccursAt(hay, needle, i)
        ensures OccursAt(tail, needle, i - 1)
      {
        assert i != 0;
        assert tail[i - 1..i - 1 + |needle|] == hay[i..i + |needle|];
      }
    }
  }

  /** The test every search of the reader applies to a verse:
      `text.toLowerCase().includes(query.toLowerCase())`. */
  predicate Matches(text: string, query: string) {
    Includes(Lower(text), Lower(query))
  }

  /** Every text matches the empty query, so searching for "" lists every verse. */
  lemma EmptyQueryMatchesEverything(text: string)
    ensures Matches(text, "")
  {
    assert Lower("") == "";
    assert Lower(text)[..0] == "";
  }

  /** A text matches a query exactly when the query, lowered, occurs in the
      lowered text: the match ignores the case of both sides. */
  lemma {:induction false} MatchesIgnoresCase(text: string, query: string)
    ensures Matches(text, query) <==> exists i :: OccursAt(Lower(text), Lower(query), i)
    ensures Matches(Lower(text), query) == Matches(text, query)
    ensures Matches(text, Lower(query)) == Matches(text, query)
  {
    IncludesIff(Lower(text), Lower(query));
    LowerIdempotent(text);
    LowerIdempotent(query);
  }

  /** The empty text matches nothing but the empty query. */
  lemma EmptyTextMatchesOnlyEmpty(query: string)
    ensures Matches("", query) <==> query == ""
  {
    if query == "" {
      EmptyQueryMatchesEverything("");
    }
  }
}
