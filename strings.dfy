/**
 * The one piece of `std::string` the shader parser relies on: `find`, which
 * gives the position of the first occurrence of a pattern, or `npos` when
 * there is none. `npos` is modelled as `None`.
 */
module Strings {
  import opened Wrappers

  /** `pat` occurs in `s` starting at position `k`. */
  predicate OccursAt(s: string, pat: string, k: nat)
  {
    k + |pat| <= |s| && s[k..k + |pat|] == pat
  }

  /** First occurrence of `pat` in `s` at or after position `from`. */
  function FindFrom(s: string, pat: string, from: nat): (r: Option<nat>)
    requires from <= |s|
    ensures r.Some? ==> from <= r.value && OccursAt(s, pat, r.value)
    ensures r.Some? ==> forall k: nat :: from <= k < r.value ==> !OccursAt(s, pat, k)
    ensures r.None? ==> forall k: nat :: from <= k <= |s| ==> !OccursAt(s, pat, k)
    decreases |s| - from
  {
    if from + |pat| > |s| then None
    else if s[from..from + |pat|] == pat then Some(from)
    else if from == |s| then None
    else FindFrom(s, pat, from + 1)
  }

  /** `s.find(pat)`: the first position of `pat` in `s`, `None` standing for `npos`. */
  function Find(s: string, pat: string): (r: Option<nat>)
    ensures r.Some? <==> exists k: nat :: OccursAt(s, pat, k)
    ensures r.Some? ==> OccursAt(s, pat, r.value) && forall k: nat :: k < r.value ==> !OccursAt(s, pat, k)
  {
    var r := FindFrom(s, pat, 0);
    assert forall k: nat :: OccursAt(s, pat, k) ==> k <= |s|;
    r
  }

  /** `s.find(pat) != std::string::npos`. */
  predicate Contains(s: string, pat: string)
  {
    Find(s, pat).Some?
  }

  /** A pattern found in `s` has its first character in `s`; so a pattern whose first character `s` lacks is not found. */
  lemma FoundFirstChar(s: string, pat: string)
    ensures |pat| > 0 && Contains(s, pat) ==> pat[0] in s
  {
    if |pat| > 0 && Contains(s, pat) {
      var k := Find(s, pat).value;
      assert s[k..k + |pat|][0] == s[k];
    }
  }

  /** A pattern found at some position is found by `find`. */
  lemma OccurrenceFound(s: string, pat: string, k: nat)
    requires OccursAt(s, pat, k)
    ensures Contains(s, pat) && Find(s, pat).value <= k
  {
  }
}
