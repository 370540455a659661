/** Substring matching as pandas' `Series.str.contains` performs it for the
    labels used by the handler ("Capital Call", "Distributions",
    "Ending Capital Balance"): none of them holds a regular-expression
    metacharacter, so the match is a literal substring search. */
module Strings {

  /** `pat` occurs in `s` starting at position `i`. */
  predicate OccursAt(s: string, pat: string, i: int)
  {
    0 <= i && i + |pat| <= |s| && s[i..i + |pat|] == pat
  }

  /** `pat` occurs somewhere in `s`: it is a prefix of `s` or of one of its suffixes. */
  predicate Contains(s: string, pat: string): (found: bool)
    ensures pat <= s ==> found
    ensures found ==> |pat| <= |s|
    decreases |s|
  {
    pat <= s || (s != [] && Contains(s[1..], pat))
  }

  /** Contains holds exactly when there is a position at which `pat` occurs. */
  lemma {:induction false} ContainsIff(s: string, pat: string)
    ensures Contains(s, pat) <==> exists i :: OccursAt(s, pat, i)
    decreases |s|
  {
    assert OccursAt(s, pat, 0) <==> pat <= s;
    if pat <= s {
      assert OccursAt(s, pat, 0);
    } else if s == [] {
      assert |pat| > 0;
    } else {
      ContainsIff(s[1..], pat);
      if Contains(s, pat) {
        var i :| OccursAt(s[1..], pat, i);
        OccursAtTail(s, pat, i);
      }
      if exists i :: OccursAt(s, pat, i) {
        var i :| OccursAt(s, pat, i);
        assert i != 0;
        OccursAtTail(s, pat, i - 1);
      }
    }
  }

  /** An occurrence in the tail of `s` is an occurrence in `s`, one place later. */
  lemma OccursAtTail(s: string, pat: string, i: int)
    requires s != [] && i >= 0
    ensures OccursAt(s[1..], pat, i) <==> OccursAt(s, pat, i + 1)
  {
    if 0 <= i && i + 1 + |pat| <= |s| {
      assert s[1..][i..i + |pat|] == s[i + 1..i + 1 + |pat|];
    }
  }

  /** A label that contains `pat` still contains it with text added on either side. */
  lemma {:induction false} ContainsExtended(pre: string, s: string, post: string, pat: string)
    requires Contains(s, pat)
    ensures Contains(pre + s + post, pat)
  {
    ContainsIff(s, pat);
    var i :| OccursAt(s, pat, i);
    assert (pre + s + post)[|pre| + i..|pre| + i + |pat|] == s[i..i + |pat|];
    assert OccursAt(pre + s + post, pat, |pre| + i);
    ContainsIff(pre + s + post, pat);
  }
}
