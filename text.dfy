/**
 * Searching for a piece of text: `String.prototype.indexOf`, which the
 * "Bearer " stripping (`replace` with a string pattern) and the title and
 * description search rely on.
 */
module Text {
  import opened Common

  /** `pat` occurs in `s` starting at position `i`. */
  predicate OccursAt(pat: string, s: string, i: int) {
    0 <= i && i + |pat| <= |s| && s[i..i + |pat|] == pat
  }

  /** The first position at or after `from` where `pat` occurs. */
  function IndexOfFrom(s: string, pat: string, from: nat): (r: Option<nat>)
    ensures r.Some? ==> from <= r.value && OccursAt(pat, s, r.value)
    ensures r.Some? ==> forall j :: from <= j < r.value ==> !OccursAt(pat, s, j)
    ensures r.None? <==> forall j :: from <= j ==> !OccursAt(pat, s, j)
    decreases |s| - from
  {
    if from + |pat| > |s| then None
    else if s[from..from + |pat|] == pat then assert OccursAt(pat, s, from); Some(from)
    else IndexOfFrom(s, pat, from + 1)
  }

  /** `s.indexOf(pat)`, with `None` for -1. */
  function IndexOf(s: string, pat: string): (r: Option<nat>)
    ensures r.Some? ==> OccursAt(pat, s, r.value) && forall j :: 0 <= j < r.value ==> !OccursAt(pat, s, j)
    ensures r.None? <==> forall j :: !OccursAt(pat, s, j)
  {
    IndexOfFrom(s, pat, 0)
  }

  /** `s.replace(pat, "")`: the first occurrence of `pat` is cut out; without one, `s` is unchanged. */
  function RemoveFirst(s: string, pat: string): (r: string)
    ensures IndexOf(s, pat).None? ==> r == s
    ensures IndexOf(s, pat).Some? ==>
      var i := IndexOf(s, pat).value;
      |r| == |s| - |pat| && r == s[..i] + s[i + |pat|..]
  {
    match IndexOf(s, pat)
    case None => s
    case Some(i) => s[..i] + s[i + |pat|..]
  }

  /** A string starting with `pat` loses exactly that prefix. */
  lemma RemoveLeading(pat: string, t: string)
    ensures RemoveFirst(pat + t, pat) == t
  {
    assert OccursAt(pat, pat + t, 0);
  }
}
