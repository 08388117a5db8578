/** matchesStringFuzzy: case-insensitive substring search built on std::ranges::search. */
module FuzzyMatch {
  import opened Ascii

  /** The comparison handed to the search: equal after upper-casing both sides. */
  predicate SameIgnoringCase(a: char, b: char) { ToUpper(a) == ToUpper(b) }

  /** The needle occurs in the haystack at offset i, compared case-insensitively. */
  ghost predicate OccursAt(haystack: string, needle: string, i: nat) {
    i + |needle| <= |haystack| &&
    forall k :: 0 <= k < |needle| ==> SameIgnoringCase(haystack[i + k], needle[k])
  }

  /** The inner comparison of the search: does the needle match at the start of s? */
  function MatchesPrefix(s: string, needle: string): (r: bool)
    ensures r <==> OccursAt(s, needle, 0)
  {
    if needle == [] then true
    else if s == [] then false
    else SameIgnoringCase(s[0], needle[0]) && MatchesPrefix(s[1..], needle[1..])
  }

  /** The outer scan of std::ranges::search from offset i: the first offset at which
      the needle occurs, or |haystack| (the end iterator) when there is none. */
  function SearchFrom(haystack: string, needle: string, i: nat): (r: nat)
    requires i <= |haystack|
    ensures i <= r <= |haystack|
    ensures r == |haystack| || OccursAt(haystack, needle, r)
    ensures forall j :: i <= j < r ==> !OccursAt(haystack, needle, j)
    decreases |haystack| - i
  {
    if i + |needle| > |haystack| then |haystack|
    else if MatchesPrefix(haystack[i..], needle) then i
    else SearchFrom(haystack, needle, i + 1)
  }

  /** matchesStringFuzzy: the search's result does not begin at the haystack's end. */
  function MatchesStringFuzzy(haystack: string, needle: string): (r: bool)
    ensures |needle| > 0 ==> (r <==> exists i :: OccursAt(haystack, needle, i))
    ensures |needle| == 0 ==> (r <==> |haystack| > 0)
    ensures |needle| > |haystack| ==> !r
  {
    SearchFrom(haystack, needle, 0) != |haystack|
  }

  /** Strings that agree character by character up to case. */
  predicate CaseEquivalent(s: string, t: string) {
    |s| == |t| && forall k :: 0 <= k < |s| ==> SameIgnoringCase(s[k], t[k])
  }

  /** The match depends on its arguments only up to case. */
  lemma CaseInsensitive(h1: string, n1: string, h2: string, n2: string)
    requires CaseEquivalent(h1, h2) && CaseEquivalent(n1, n2)
    ensures MatchesStringFuzzy(h1, n1) == MatchesStringFuzzy(h2, n2)
  {
    forall i: nat
      ensures OccursAt(h1, n1, i) <==> OccursAt(h2, n2, i)
    {
      if i + |n1| <= |h1| {
        forall k | 0 <= k < |n1|
          ensures SameIgnoringCase(h1[i + k], n1[k]) <==> SameIgnoringCase(h2[i + k], n2[k])
        {
          assert SameIgnoringCase(h1[i + k], h2[i + k]);
          assert SameIgnoringCase(n1[k], n2[k]);
        }
      }
    }
  }

  /** Replacing one character of the haystack by its upper-case form changes nothing. */
  lemma UpperOneHaystackChar(haystack: string, needle: string, i: nat)
    requires i < |haystack|
    ensures MatchesStringFuzzy(haystack[i := ToUpper(haystack[i])], needle)
         == MatchesStringFuzzy(haystack, needle)
  {
    CaseInsensitive(haystack[i := ToUpper(haystack[i])], needle, haystack, needle);
  }

  /** Replacing one character of the needle by its upper-case form changes nothing. */
  lemma UpperOneNeedleChar(haystack: string, needle: string, i: nat)
    requires i < |needle|
    ensures MatchesStringFuzzy(haystack, needle[i := ToUpper(needle[i])])
         == MatchesStringFuzzy(haystack, needle)
  {
    CaseInsensitive(haystack, needle[i := ToUpper(needle[i])], haystack, needle);
  }

  /** Reference definition: t appears verbatim in s starting at offset i. */
  predicate SliceAt(s: string, t: string, i: nat) {
    i + |t| <= |s| && s[i..i + |t|] == t
  }

  /** At one offset, a case-insensitive occurrence is a verbatim occurrence of the
      upper-cased needle in the upper-cased haystack. */
  lemma OccursAtIffUpperSlice(haystack: string, needle: string, i: nat)
    ensures OccursAt(haystack, needle, i) <==> SliceAt(UpperAll(haystack), UpperAll(needle), i)
  {
    var H, N := UpperAll(haystack), UpperAll(needle);
    if i + |needle| <= |haystack| {
      if OccursAt(haystack, needle, i) {
        assert forall k :: 0 <= k < |N| ==> H[i..i + |N|][k] == N[k];
      }
      if SliceAt(H, N, i) {
        forall k | 0 <= k < |needle|
          ensures SameIgnoringCase(haystack[i + k], needle[k])
        {
          assert H[i..i + |N|][k] == N[k];
        }
      }
    }
  }

  /** A non-empty needle matches exactly when its upper-cased form is a plain
      substring of the upper-cased haystack. */
  lemma MatchesIffUpperSubstring(haystack: string, needle: string)
    requires |needle| > 0
    ensures MatchesStringFuzzy(haystack, needle)
        <==> exists i :: SliceAt(UpperAll(haystack), UpperAll(needle), i)
  {
    if MatchesStringFuzzy(haystack, needle) {
      var i :| OccursAt(haystack, needle, i);
      OccursAtIffUpperSlice(haystack, needle, i);
    }
    if exists i :: SliceAt(UpperAll(haystack), UpperAll(needle), i) {
      var i :| SliceAt(UpperAll(haystack), UpperAll(needle), i);
      OccursAtIffUpperSlice(haystack, needle, i);
    }
  }
}
