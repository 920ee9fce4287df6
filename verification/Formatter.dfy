/** Plain-text formatting: stripping tags, escaping and decoding HTML. */
module Formatter {
  import opened Wrappers
  import opened Text

  // ----- Stripping tags -----

  // The text from `i` to `j` matches the tag pattern: `<`, at least one character other than `>`, then `>`.
  ghost predicate TagAt(s: string, i: nat, j: nat) {
    i + 2 <= j < |s| && s[i] == '<' && s[j] == '>' && forall k :: i < k < j ==> s[k] != '>'
  }

  ghost predicate NoTags(s: string) {
    forall i: nat, j: nat :: !TagAt(s, i, j)
  }

  // The first `>` at or after `from`, or the length of `s`.
  function FirstClose(s: string, from: nat): (j: nat)
    requires from <= |s|
    ensures from <= j <= |s| && (j < |s| ==> s[j] == '>')
    ensures forall k :: from <= k < j ==> s[k] != '>'
    decreases |s| - from
  {
    if from == |s| || s[from] == '>' then from else FirstClose(s, from + 1)
  }

  // Where the tag that starts `s` ends.
  function TagEnd(s: string): (end: Option<nat>)
    requires s != []
    ensures end.Some? ==> TagAt(s, 0, end.value)
    ensures end.None? ==> forall j: nat :: !TagAt(s, 0, j)
  {
    if s[0] != '<' then None
    else
      var j := FirstClose(s, 1);
      if 2 <= j < |s| then Some(j) else None
  }

  // One pass: every leftmost, non-overlapping match goes.
  function StripPass(s: string): string
    decreases |s|
  {
    if s == [] then []
    else
      var end := TagEnd(s);
      if end.Some? then StripPass(s[end.value + 1..]) else [s[0]] + StripPass(s[1..])
  }

  lemma {:induction false} PassShrinks(s: string)
    ensures |StripPass(s)| <= |s|
    ensures StripPass(s) != s ==> |StripPass(s)| < |s|
    decreases |s|
  {
    if s != [] {
      var end := TagEnd(s);
      if end.Some? {
        PassShrinks(s[end.value + 1..]);
      } else {
        PassShrinks(s[1..]);
      }
    }
  }

  lemma TagsOfTail(s: string, i: nat, j: nat)
    requires s != [] && i > 0 && TagAt(s, i, j)
    ensures TagAt(s[1..], i - 1, j - 1)
  {
    assert forall k :: i - 1 < k < j - 1 ==> s[1..][k] == s[k + 1];
  }

  lemma TailHasNoTags(s: string)
    requires s != [] && NoTags(s)
    ensures NoTags(s[1..])
  {
    forall i: nat, j: nat
      ensures !TagAt(s[1..], i, j)
    {
      if TagAt(s[1..], i, j) {
        assert forall k :: i + 1 < k < j + 1 ==> s[k] == s[1..][k - 1];
        assert TagAt(s, i + 1, j + 1);
      }
    }
  }

  lemma {:induction false} CleanIsFixed(s: string)
    requires NoTags(s)
    ensures StripPass(s) == s
    decreases |s|
  {
    if s != [] {
      TailHasNoTags(s);
      CleanIsFixed(s[1..]);
      assert s == [s[0]] + s[1..];
    }
  }

  lemma {:induction false} NoCloseIsFixed(s: string)
    requires '>' !in s
    ensures StripPass(s) == s
    decreases |s|
  {
    if s != [] {
      NoCloseIsFixed(s[1..]);
      assert s == [s[0]] + s[1..];
    }
  }

  // No tag starts at a `<` that closes at once or never.
  lemma ConsHasNoTags(c: char, r: string)
    requires NoTags(r) && (c == '<' ==> '>' !in r || r[0] == '>')
    ensures NoTags([c] + r)
  {
    var s := [c] + r;
    assert s[1..] == r;
    forall i: nat, j: nat
      ensures !TagAt(s, i, j)
    {
      if i > 0 && TagAt(s, i, j) {
        TagsOfTail(s, i, j);
      }
      assert forall k :: 1 <= k < |s| ==> s[k] == r[k - 1];
    }
  }

  /** One pass leaves no tag, not even one put together from what stood around those it removed. */
  lemma {:induction false} PassIsClean(s: string)
    ensures NoTags(StripPass(s))
    decreases |s|
  {
    if s != [] {
      var end := TagEnd(s);
      if end.Some? {
        PassIsClean(s[end.value + 1..]);
      } else {
        var rest := s[1..];
        PassIsClean(rest);
        if s[0] == '<' {
          var j := FirstClose(s, 1);
          if j == |s| {
            NoCloseIsFixed(rest);
          } else {
            assert rest[0] == '>';
            assert StripPass(rest)[0] == '>';
          }
        }
        ConsHasNoTags(s[0], StripPass(rest));
      }
    }
  }

  /** A pass changes a text exactly when it holds a tag, and a second pass changes nothing. */
  lemma PassIsIdempotent(s: string)
    ensures StripPass(s) == s <==> NoTags(s)
    ensures StripPass(StripPass(s)) == StripPass(s)
  {
    PassIsClean(s);
    CleanIsFixed(StripPass(s));
    if NoTags(s) {
      CleanIsFixed(s);
    }
  }

  /** Passes until nothing changes; `passes` counts them. */
  method StripTagsLoop(text: string) returns (result: string, passes: nat)
    ensures result == StripPass(text) && NoTags(result)
    ensures passes == if NoTags(text) then 1 else 2
  {
    result := text;
    passes := 0;
    while true
      invariant passes == 0 ==> result == text
      invariant passes > 0 ==> passes == 1 && !NoTags(text) && result == StripPass(text) && NoTags(result)
      decreases |result|
    {
      var stripped := StripPass(result);
      passes := passes + 1;
      PassIsClean(result);
      if NoTags(result) {
        CleanIsFixed(result);
      }
      if stripped == result {
        break;
      }
      PassShrinks(result);
      result := stripped;
    }
  }

  // A text cut into characters that stay and tags that go.
  datatype Piece = Kept(c: char) | Tag(text: string)

  ghost function Whole(pieces: seq<Piece>): string {
    if pieces == [] then [] else (if pieces[0].Kept? then [pieces[0].c] else pieces[0].text) + Whole(pieces[1..])
  }

  ghost function Remains(pieces: seq<Piece>): string {
    if pieces == [] then [] else (if pieces[0].Kept? then [pieces[0].c] else []) + Remains(pieces[1..])
  }

  ghost predicate IsTag(text: string) {
    |text| >= 3 && TagAt(text, 0, |text| - 1)
  }

  // Everything taken out is a tag.
  ghost predicate OnlyTagsGo(pieces: seq<Piece>) {
    forall p :: p in pieces && p.Tag? ==> IsTag(p.text)
  }

  lemma PiecesCons(p: Piece, rest: seq<Piece>)
    requires OnlyTagsGo(rest) && (p.Tag? ==> IsTag(p.text))
    ensures OnlyTagsGo([p] + rest)
    ensures Whole([p] + rest) == (if p.Kept? then [p.c] else p.text) + Whole(rest)
    ensures Remains([p] + rest) == (if p.Kept? then [p.c] else []) + Remains(rest)
  {
    assert ([p] + rest)[1..] == rest;
  }

  /** What a pass takes out is whole tags; every other character stays, in order. */
  lemma {:induction false} PassRemovesOnlyTags(s: string) returns (pieces: seq<Piece>)
    ensures Whole(pieces) == s && Remains(pieces) == StripPass(s)
    ensures OnlyTagsGo(pieces)
    decreases |s|
  {
    if s == [] {
      pieces := [];
    } else {
      var end := TagEnd(s);
      if end.Some? {
        var n := end.value + 1;
        var rest := PassRemovesOnlyTags(s[n..]);
        pieces := [Tag(s[..n])] + rest;
        PiecesCons(Tag(s[..n]), rest);
        assert s == s[..n] + s[n..];
      } else {
        var rest := PassRemovesOnlyTags(s[1..]);
        pieces := [Kept(s[0])] + rest;
        PiecesCons(Kept(s[0]), rest);
        assert s == [s[0]] + s[1..];
      }
    }
  }

  // ----- Escaping -----

  function EscapeHtml(text: string): string {
    Replace(Replace(Replace(text, "&", "&amp;"), "<", "&lt;"), ">", "&gt;")
  }

  ghost function Entity(c: char): string {
    if c == '&' then "&amp;" else if c == '<' then "&lt;" else if c == '>' then "&gt;" else [c]
  }

  // Each character in `cs` becomes its entity.
  ghost function Escaped(t: string, cs: set<char>): string {
    if t == [] then [] else (if t[0] in cs then Entity(t[0]) else [t[0]]) + Escaped(t[1..], cs)
  }

  const MARKUP: set<char> := {'&', '<', '>'}

  lemma {:induction false} ReplaceCharConcat(a: string, b: string, c: char, with: string)
    ensures Replace(a + b, [c], with) == Replace(a, [c], with) + Replace(b, [c], with)
    decreases |a|
  {
    if a == [] {
      assert a + b == b;
    } else {
      assert (a + b)[1..] == a[1..] + b;
      ReplaceCharConcat(a[1..], b, c, with);
    }
  }

  lemma ReplaceOneChar(x: char, c: char, with: string)
    ensures Replace([x], [c], with) == if x == c then with else [x]
  {
    assert [x][1..] == [] && [x][..1] == [x];
    assert Replace([], [c], with) == [];
    assert with + [] == with;
  }

  lemma AbsentChar(s: string, c: char, with: string)
    requires c !in s
    ensures Replace(s, [c], with) == s
  {
    PassOver(s, [], [c], with);
    assert s + [] == s;
  }

  lemma EscapeOneChar(x: char)
    ensures EscapeHtml([x]) == Entity(x)
  {
    ReplaceOneChar(x, '&', "&amp;");
    var s := Replace([x], "&", "&amp;");
    if x == '&' {
      AbsentChar(s, '<', "&lt;");
      AbsentChar(s, '>', "&gt;");
    } else {
      ReplaceOneChar(x, '<', "&lt;");
      if x == '<' {
        AbsentChar("&lt;", '>', "&gt;");
      } else {
        ReplaceOneChar(x, '>', "&gt;");
      }
    }
  }

  lemma EscapeConcat(a: string, b: string)
    ensures EscapeHtml(a + b) == EscapeHtml(a) + EscapeHtml(b)
  {
    ReplaceCharConcat(a, b, '&', "&amp;");
    var a1, b1 := Replace(a, "&", "&amp;"), Replace(b, "&", "&amp;");
    ReplaceCharConcat(a1, b1, '<', "&lt;");
    ReplaceCharConcat(Replace(a1, "<", "&lt;"), Replace(b1, "<", "&lt;"), '>', "&gt;");
  }

  /** The three replacements one after another are one substitution, character by character. */
  lemma {:induction false} EscapeIsOneSubstitution(t: string)
    ensures EscapeHtml(t) == Escaped(t, MARKUP)
    decreases |t|
  {
    if t != [] {
      assert t == [t[0]] + t[1..];
      EscapeConcat([t[0]], t[1..]);
      EscapeOneChar(t[0]);
      EscapeIsOneSubstitution(t[1..]);
    }
  }

  // No entity is the beginning of another.
  lemma EntitiesArePrefixFree(c: char, x: string, d: char, y: string)
    requires Entity(c) + x == Entity(d) + y
    ensures c == d && x == y
  {
    var s, hc, hd := Entity(c) + x, Entity(c), Entity(d);
    assert s[0] == hc[0] == hd[0];
    if |hc| > 1 && |hd| > 1 {
      assert s[1] == hc[1] == hd[1];
    }
    assert c == d;
    assert s[|hc|..] == x && s[|hc|..] == y;
  }

  lemma EscapedUnfold(t: string)
    requires t != []
    ensures Escaped(t, MARKUP) == Entity(t[0]) + Escaped(t[1..], MARKUP)
  {
  }

  lemma {:induction false} SubstitutionIsInjective(a: string, b: string)
    requires Escaped(a, MARKUP) == Escaped(b, MARKUP)
    ensures a == b
    decreases |a|
  {
    if a != [] && b != [] {
      EscapedUnfold(a);
      EscapedUnfold(b);
      EntitiesArePrefixFree(a[0], Escaped(a[1..], MARKUP), b[0], Escaped(b[1..], MARKUP));
      SubstitutionIsInjective(a[1..], b[1..]);
      assert a == [a[0]] + a[1..] && b == [b[0]] + b[1..];
    }
  }

  /** Different texts stay different when escaped. */
  lemma EscapeIsInjective(a: string, b: string)
    requires EscapeHtml(a) == EscapeHtml(b)
    ensures a == b
  {
    EscapeIsOneSubstitution(a);
    EscapeIsOneSubstitution(b);
    SubstitutionIsInjective(a, b);
  }
}
