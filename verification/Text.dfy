/** Whole-string replacement: leftmost occurrences first, none overlapping. */
module Text {
  predicate StartsWith(s: string, pat: string) {
    |pat| <= |s| && s[..|pat|] == pat
  }

  function Replace(s: string, pat: string, with: string): string
    requires pat != []
    decreases |s|
  {
    if s == [] then []
    else if StartsWith(s, pat) then with + Replace(s[|pat|..], pat, with)
    else [s[0]] + Replace(s[1..], pat, with)
  }

  ghost predicate OccursAt(s: string, pat: string, i: nat) {
    i <= |s| && StartsWith(s[i..], pat)
  }

  ghost predicate Contains(s: string, pat: string) {
    exists i: nat :: OccursAt(s, pat, i)
  }

  lemma ContainsTail(s: string, pat: string)
    requires s != [] && Contains(s[1..], pat)
    ensures Contains(s, pat)
  {
    var i: nat :| OccursAt(s[1..], pat, i);
    assert s[1..][i..] == s[i + 1..];
    assert OccursAt(s, pat, i + 1);
  }

  lemma ContainsHeadOrTail(s: string, pat: string)
    requires s != [] && pat != [] && Contains(s, pat) && !StartsWith(s, pat)
    ensures Contains(s[1..], pat)
  {
    var i: nat :| OccursAt(s, pat, i);
    assert s[0..] == s;
    assert s[1..][i - 1..] == s[i..];
    assert OccursAt(s[1..], pat, i - 1);
  }

  lemma {:induction false} ReplaceNone(s: string, pat: string, with: string)
    requires pat != [] && !Contains(s, pat)
    ensures Replace(s, pat, with) == s
    decreases |s|
  {
    if s != [] {
      assert s[0..] == s;
      assert !OccursAt(s, pat, 0);
      if Contains(s[1..], pat) {
        ContainsTail(s, pat);
      }
      ReplaceNone(s[1..], pat, with);
    }
  }

  /** A shorter replacement shortens exactly the strings that contain the pattern. */
  lemma {:induction false} ReplaceShortens(s: string, pat: string, with: string)
    requires |with| < |pat|
    ensures |Replace(s, pat, with)| <= |s|
    ensures Contains(s, pat) <==> |Replace(s, pat, with)| < |s|
    decreases |s|
  {
    if s == [] {
    } else if StartsWith(s, pat) {
      assert s[0..] == s;
      assert OccursAt(s, pat, 0);
      ReplaceShortens(s[|pat|..], pat, with);
    } else {
      ReplaceShortens(s[1..], pat, with);
      if Contains(s[1..], pat) {
        ContainsTail(s, pat);
      }
      if Contains(s, pat) {
        ContainsHeadOrTail(s, pat);
      }
    }
  }

  // A prefix in which the pattern cannot start is copied.
  lemma {:induction false} PassOver(u: string, s: string, pat: string, with: string)
    requires pat != [] && pat[0] !in u
    ensures Replace(u + s, pat, with) == u + Replace(s, pat, with)
    decreases |u|
  {
    if u == [] {
      assert u + s == s;
    } else {
      assert (u + s)[1..] == u[1..] + s;
      assert (u + s)[0] == u[0];
      PassOver(u[1..], s, pat, with);
      assert u == [u[0]] + u[1..];
    }
  }

  lemma ReplaceHead(s: string, pat: string, with: string)
    requires pat != []
    ensures Replace(pat + s, pat, with) == with + Replace(s, pat, with)
  {
    assert (pat + s)[|pat|..] == s;
  }

  lemma ReplaceSkip(c: char, s: string, pat: string, with: string)
    requires pat != [] && !StartsWith([c] + s, pat)
    ensures Replace([c] + s, pat, with) == [c] + Replace(s, pat, with)
  {
    assert ([c] + s)[1..] == s;
  }
}
