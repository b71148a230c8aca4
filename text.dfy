/**
  The two string operations the task list relies on:
  - Swift's `String <`, used for sorting titles, categories and priority raw
    values, modelled as lexicographic order on code points;
  - `localizedCaseInsensitiveContains`, used by the search filter, modelled as
    a substring test after ASCII case folding.
 */
module Text {

  /**
    `a < b` on strings: lexicographic, a proper prefix comes first. A string
    is never below itself, and the smaller one never starts with a larger
    character.
   */
  function Less(a: string, b: string): (r: bool)
    ensures r ==> a != b
    ensures r ==> b != [] && (a == [] || a[0] <= b[0])
  {
    if a == [] then b != []
    else if b == [] then false
    else a[0] < b[0] || (a[0] == b[0] && Less(a[1..], b[1..]))
  }

  lemma LessIrreflexive(a: string)
    ensures !Less(a, a)
  {
  }

  lemma {:induction false} LessTransitive(a: string, b: string, c: string)
    requires Less(a, b) && Less(b, c)
    ensures Less(a, c)
  {
    if a != [] && b != [] && c != [] && a[0] == b[0] && b[0] == c[0] {
      LessTransitive(a[1..], b[1..], c[1..]);
    }
  }

  /** Any two different strings are ordered one way or the other. */
  lemma {:induction false} LessTotal(a: string, b: string)
    requires a != b
    ensures Less(a, b) || Less(b, a)
  {
    if a != [] && b != [] && a[0] == b[0] {
      assert a == [a[0]] + a[1..] && b == [b[0]] + b[1..];
      LessTotal(a[1..], b[1..]);
    }
  }

  lemma LessAsymmetric(a: string, b: string)
    requires Less(a, b)
    ensures !Less(b, a)
  {
  }

  /** "Not after" is transitive: the complement of `Less` is a total preorder. */
  lemma NotLessTransitive(a: string, b: string, c: string)
    requires !Less(b, a) && !Less(c, b)
    ensures !Less(c, a)
  {
  }

  /** Simple case folding: 'A'..'Z' become 'a'..'z', every other character is kept. */
  function LowerChar(c: char): (d: char)
    ensures 'A' <= c <= 'Z' ==> 'a' <= d <= 'z' && d as int - c as int == 32
    ensures !('A' <= c <= 'Z') ==> d == c
  {
    if 'A' <= c <= 'Z' then (c as int + 32) as char else c
  }

  function Lower(s: string): (r: string)
    ensures |r| == |s|
    ensures forall i :: 0 <= i < |s| ==> r[i] == LowerChar(s[i])
  {
    if s == [] then [] else [LowerChar(s[0])] + Lower(s[1..])
  }

  /** `needle` occurs in `hay` starting at position `i`. */
  predicate OccursAt(hay: string, needle: string, i: nat)
  {
    i + |needle| <= |hay| && hay[i..i + |needle|] == needle
  }

  /** Substring test, by scanning `hay` for a position where `needle` starts. */
  function Contains(hay: string, needle: string): (b: bool)
    ensures b <==> exists i: nat :: OccursAt(hay, needle, i)
    decreases |hay|
  {
    if |needle| > |hay| then
      assert forall i: nat :: !OccursAt(hay, needle, i);
      false
    else if needle == hay[..|needle|] then
      assert OccursAt(hay, needle, 0);
      true
    else
      var rest := Contains(hay[1..], needle);
      ShiftOccurrence(hay, needle);
      rest
  }

  /** When `needle` is not at the front of `hay`, its occurrences are those in the tail. */
  lemma ShiftOccurrence(hay: string, needle: string)
    requires |needle| <= |hay| && needle != hay[..|needle|]
    ensures (exists i: nat :: OccursAt(hay, needle, i)) <==> (exists i: nat :: OccursAt(hay[1..], needle, i))
  {
    if i: nat :| OccursAt(hay, needle, i) {
      assert i != 0;
      assert hay[1..][i - 1..i - 1 + |needle|] == hay[i..i + |needle|];
      assert OccursAt(hay[1..], needle, i - 1);
    }
    if i: nat :| OccursAt(hay[1..], needle, i) {
      assert hay[1..][i..i + |needle|] == hay[i + 1..i + 1 + |needle|];
      assert OccursAt(hay, needle, i + 1);
    }
  }

  /** Some window of `text` starting at `i` equals `search` up to case. */
  predicate MatchesAt(text: string, search: string, i: nat)
  {
    i + |search| <= |text| && Lower(text[i..i + |search|]) == Lower(search)
  }

  /**
    `text.localizedCaseInsensitiveContains(search)`, with ASCII case folding.
    Like Foundation's search, an empty `search` is found nowhere.
   */
  function ContainsIgnoringCase(text: string, search: string): (b: bool)
    ensures b <==> (search != [] && exists i: nat :: MatchesAt(text, search, i))
  {
    forall i: nat ensures OccursAt(Lower(text), Lower(search), i) <==> MatchesAt(text, search, i) {
      if i + |search| <= |text| {
        LowerSlice(text, i, i + |search|);
      }
    }
    search != [] && Contains(Lower(text), Lower(search))
  }

  /** Folding a slice is slicing the folded string. */
  lemma LowerSlice(s: string, i: nat, j: nat)
    requires i <= j <= |s|
    ensures Lower(s)[i..j] == Lower(s[i..j])
  {
    var folded, slice := Lower(s), s[i..j];
    assert |folded[i..j]| == |Lower(slice)|;
    forall k | 0 <= k < j - i
      ensures folded[i..j][k] == Lower(slice)[k]
    {
      assert slice[k] == s[i + k];
    }
  }

  /** Case folding makes the test insensitive to the case of either side. */
  lemma LowerIdempotent(s: string)
    ensures Lower(Lower(s)) == Lower(s)
  {
  }

  lemma ContainsIgnoringCaseOfLowered(text: string, search: string)
    ensures ContainsIgnoringCase(Lower(text), search) == ContainsIgnoringCase(text, search)
    ensures ContainsIgnoringCase(text, Lower(search)) == ContainsIgnoringCase(text, search)
  {
    LowerIdempotent(text);
    LowerIdempotent(search);
  }
}
