/** Substring search on strings, as used by Python's `needle in haystack`. */
module Text {

  /** True iff `p` is a prefix of `s`. */
  predicate IsPrefix(p: string, s: string)
  {
    |p| <= |s| && s[..|p|] == p
  }

  /** The declarative meaning of an occurrence: `p` starts at position `i` of `s`. */
  ghost predicate OccursAt(s: string, p: string, i: int)
  {
    0 <= i && i + |p| <= |s| && s[i..i + |p|] == p
  }

  /** Python's `p in s` for strings: some suffix of `s` starts with `p`.
      The empty string occurs in every string, as it does in Python. */
  function Contains(s: string, p: string): (b: bool)
    ensures b ==> |p| <= |s|
    ensures |p| == 0 ==> b
    decreases |s|
  {
    IsPrefix(p, s) || (|s| > 0 && Contains(s[1..], p))
  }

  /** `Contains` finds an occurrence exactly when one exists. */
  lemma {:induction false} ContainsIffOccurs(s: string, p: string)
    ensures Contains(s, p) <==> exists i :: OccursAt(s, p, i)
    decreases |s|
  {
    if IsPrefix(p, s) {
      assert OccursAt(s, p, 0);
    } else if |s| == 0 {
      assert forall i :: !OccursAt(s, p, i);
    } else {
      ContainsIffOccurs(s[1..], p);
      if Contains(s[1..], p) {
        var i :| OccursAt(s[1..], p, i);
        OccursShift(s, p, i + 1);
      } else {
        forall i | OccursAt(s, p, i)
          ensures false
        {
          assert i != 0;
          OccursShift(s, p, i);
        }
      }
    }
  }

  /** An occurrence at position `i > 0` of `s` is an occurrence at `i - 1` of
      `s` without its first character, and conversely. */
  lemma OccursShift(s: string, p: string, i: int)
    requires |s| > 0 && i > 0
    ensures OccursAt(s, p, i) <==> OccursAt(s[1..], p, i - 1)
  {
    if i + |p| <= |s| {
      assert s[1..][i - 1..i - 1 + |p|] == s[i..i + |p|];
    }
  }
}
