/** Decoding HTML entities, and what decoding does to escaped text. */
module Entities {
  import opened Wrappers
  import opened Text
  import opened Formatter

  // ----- Numeric entities -----

  predicate IsHexDigit(c: char) {
    '0' <= c <= '9' || 'a' <= c <= 'f' || 'A' <= c <= 'F'
  }

  predicate IsDecimalDigit(c: char) {
    '0' <= c <= '9'
  }

  predicate IsDigit(c: char, hex: bool) {
    if hex then IsHexDigit(c) else IsDecimalDigit(c)
  }

  function DigitValue(c: char): nat
    requires IsHexDigit(c)
  {
    if c <= '9' then (c - '0') as nat else if 'a' <= c then (c - 'a') as nat + 10 else (c - 'A') as nat + 10
  }

  // How many of the characters from `from` on are digits.
  function DigitRun(s: string, from: nat, hex: bool): (end: nat)
    requires from <= |s|
    ensures from <= end <= |s|
    ensures forall k :: from <= k < end ==> IsDigit(s[k], hex)
    decreases |s| - from
  {
    if from < |s| && IsDigit(s[from], hex) then DigitRun(s, from + 1, hex) else from
  }

  function Number(digits: string, hex: bool): nat
    requires forall k :: 0 <= k < |digits| ==> IsDigit(digits[k], hex)
  {
    if digits == [] then 0
    else
      var n := |digits| - 1;
      assert IsDigit(digits[n], hex);
      (if hex then 16 else 10) * Number(digits[..n], hex) + DigitValue(digits[n])
  }

  // A scalar value as a character; anything else, 32-bit overflow included, has none.
  function FromCode(code: nat): Option<char> {
    if code < 0xD800 || 0xE000 <= code < 0x11_0000 then Some(code as char) else None
  }

  // One pass over `&#x...;` or `&#...;`; a match that names no character is left as it is.
  function DecodeNumeric(s: string, prefix: string, hex: bool): string
    requires prefix != []
    decreases |s|
  {
    if s == [] then []
    else if StartsWith(s, prefix) then
      var end := DigitRun(s, |prefix|, hex);
      if |prefix| < end < |s| && s[end] == ';' then
        var digits := s[|prefix|..end];
        assert forall k :: 0 <= k < |digits| ==> digits[k] == s[|prefix| + k];
        var c := FromCode(Number(digits, hex));
        (if c.Some? then [c.value] else s[..end + 1]) + DecodeNumeric(s[end + 1..], prefix, hex)
      else [s[0]] + DecodeNumeric(s[1..], prefix, hex)
    else [s[0]] + DecodeNumeric(s[1..], prefix, hex)
  }

  function DecodeNamed(text: string): string {
    Replace(Replace(Replace(text, "&quot;", "\""), "&#39;", "'"), "&apos;", "'")
  }

  function DecodeSafeEntities(text: string): string {
    var s := DecodeNamed(text);
    var s := DecodeNumeric(s, "&#x", true);
    DecodeNumeric(s, "&#", false)
  }

  function DecodeAllEntities(text: string): string {
    var s := DecodeSafeEntities(text);
    Replace(Replace(Replace(Replace(s, "&amp;", "&"), "&lt;", "<"), "&gt;", ">"), "&nbsp;", " ")
  }

  // ----- Stripping all HTML -----

  function DropAngles(s: string): string {
    if s == [] then [] else (if s[0] == '<' || s[0] == '>' then [] else [s[0]]) + DropAngles(s[1..])
  }

  lemma {:induction false} AnglesAreDropped(s: string)
    ensures '<' !in DropAngles(s) && '>' !in DropAngles(s)
  {
    if s != [] {
      AnglesAreDropped(s[1..]);
    }
  }

  method StripHtml(text: string) returns (r: string)
    ensures r == DropAngles(DecodeAllEntities(StripPass(text)))
    ensures '<' !in r && '>' !in r
  {
    var s, passes := StripTagsLoop(text);
    var t := DecodeAllEntities(s);
    r := DropAngles(t);
    AnglesAreDropped(t);
  }

  // ----- Escaped text holds no entity that the safe decoder knows -----

  // An `&` at `i` is followed by what follows it in one of the three entities that escaping writes.
  ghost predicate CalmAt(s: string, i: nat)
    requires i < |s|
  {
    s[i] == '&' ==> i + 2 < |s| && (s[i + 1] == 'l' || s[i + 1] == 'g' || (s[i + 1] == 'a' && s[i + 2] == 'm'))
  }

  ghost predicate Calm(s: string) {
    forall i :: 0 <= i < |s| ==> CalmAt(s, i)
  }

  // What the safe decoder looks for.
  ghost predicate Foreign(pat: string) {
    |pat| >= 2 && pat[0] == '&' && (pat[1] == '#' || pat[1] == 'q' || (|pat| >= 3 && pat[1] == 'a' && pat[2] == 'p'))
  }

  lemma CalmConcat(a: string, b: string)
    requires Calm(a) && Calm(b)
    ensures Calm(a + b)
  {
    var s := a + b;
    forall i | 0 <= i < |s|
      ensures CalmAt(s, i)
    {
      if i < |a| {
        assert CalmAt(a, i);
        assert i + 2 < |a| ==> s[i + 1] == a[i + 1] && s[i + 2] == a[i + 2];
      } else {
        assert CalmAt(b, i - |a|);
        assert i + 2 < |s| ==> s[i + 1] == b[i - |a| + 1] && s[i + 2] == b[i - |a| + 2];
      }
    }
  }

  lemma {:induction false} EscapedIsCalm(t: string)
    ensures Calm(Escaped(t, MARKUP))
    decreases |t|
  {
    if t != [] {
      EscapedIsCalm(t[1..]);
      CalmConcat(Entity(t[0]), Escaped(t[1..], MARKUP));
    }
  }

  lemma CalmHasNoForeign(s: string, pat: string)
    requires Calm(s) && Foreign(pat)
    ensures !Contains(s, pat)
  {
    forall i: nat
      ensures !OccursAt(s, pat, i)
    {
      if i + |pat| <= |s| {
        assert CalmAt(s, i);
        assert s[i..][..|pat|][0] == s[i] && s[i..][..|pat|][1] == s[i + 1];
        assert |pat| >= 3 ==> s[i..][..|pat|][2] == s[i + 2];
      }
    }
  }

  lemma {:induction false} NumericNone(s: string, prefix: string, hex: bool)
    requires prefix != [] && !Contains(s, prefix)
    ensures DecodeNumeric(s, prefix, hex) == s
    decreases |s|
  {
    if s != [] {
      assert s[0..] == s;
      assert !OccursAt(s, prefix, 0);
      if Contains(s[1..], prefix) {
        ContainsTail(s, prefix);
      }
      NumericNone(s[1..], prefix, hex);
    }
  }

  lemma SafeDecoderKeepsCalm(s: string)
    requires Calm(s)
    ensures DecodeSafeEntities(s) == s
  {
    CalmHasNoForeign(s, "&quot;");
    CalmHasNoForeign(s, "&#39;");
    CalmHasNoForeign(s, "&apos;");
    CalmHasNoForeign(s, "&#x");
    CalmHasNoForeign(s, "&#");
    ReplaceNone(s, "&quot;", "\"");
    ReplaceNone(s, "&#39;", "'");
    ReplaceNone(s, "&apos;", "'");
    NumericNone(s, "&#x", true);
    NumericNone(s, "&#", false);
  }

  // ----- Undoing the substitution, one entity at a time -----

  const ANGLES: set<char> := {'<', '>'}

  lemma EscapedCons(c: char, t: string, cs: set<char>)
    ensures Escaped([c] + t, cs) == (if c in cs then Entity(c) else [c]) + Escaped(t, cs)
  {
    assert ([c] + t)[1..] == t;
  }

  // An entity is `&` and a tail without one.
  ghost function Tail(d: char): (tail: string)
    requires d in MARKUP
    ensures Entity(d) == ['&'] + tail && |tail| > 0 && forall c :: c in tail ==> c !in MARKUP
  {
    Entity(d)[1..]
  }

  lemma TailsDiffer(c: char, d: char)
    requires c in MARKUP && d in MARKUP && c != d
    ensures Tail(c)[0] != Tail(d)[0]
  {
  }

  lemma SkipEntity(tail: string, other: string, rest: string, with: string)
    requires |tail| > 0 && |other| > 0 && '&' !in tail && tail[0] != other[0]
    ensures Replace((['&'] + tail) + rest, ['&'] + other, with) == (['&'] + tail) + Replace(rest, ['&'] + other, with)
  {
    var pat := ['&'] + other;
    assert (['&'] + tail) + rest == ['&'] + (tail + rest);
    assert (['&'] + (tail + rest))[1] == tail[0];
    assert !StartsWith(['&'] + (tail + rest), pat) by {
      assert pat[1] == other[0];
    }
    ReplaceSkip('&', tail + rest, pat, with);
    PassOver(tail, rest, pat, with);
    assert ['&'] + (tail + Replace(rest, pat, with)) == (['&'] + tail) + Replace(rest, pat, with);
  }

  // Another entity starts like the one looked for, and differs in its next character.
  lemma OtherEntity(c: char, d: char, rest: string, with: string)
    requires c in MARKUP && d in MARKUP && c != d
    ensures Replace(Entity(c) + rest, Entity(d), with) == Entity(c) + Replace(rest, Entity(d), with)
  {
    TailsDiffer(c, d);
    SkipEntity(Tail(c), Tail(d), rest, with);
  }

  /** Replacing `&amp;` undoes the escaping of `&` and nothing else. */
  lemma {:induction false} AmpersandsComeBack(t: string)
    ensures Replace(Escaped(t, MARKUP), "&amp;", "&") == Escaped(t, ANGLES)
    decreases |t|
  {
    if t != [] {
      var rest := Escaped(t[1..], MARKUP);
      AmpersandsComeBack(t[1..]);
      if t[0] == '&' {
        ReplaceHead(rest, "&amp;", "&");
      } else if t[0] in MARKUP {
        OtherEntity(t[0], '&', rest, "&");
      } else {
        PassOver([t[0]], rest, "&amp;", "&");
      }
    }
  }

  lemma SplitPrefix(s: string, pat: string)
    requires s != [] && pat != []
    ensures StartsWith(s, pat) <==> s[0] == pat[0] && StartsWith(s[1..], pat[1..])
  {
    if StartsWith(s, pat) {
      assert s[1..][..|pat| - 1] == s[..|pat|][1..];
    }
    if s[0] == pat[0] && StartsWith(s[1..], pat[1..]) {
      assert s[..|pat|] == [s[0]] + s[1..][..|pat| - 1];
      assert pat == [pat[0]] + pat[1..];
    }
  }

  lemma PlainHeadMatches(t: string, cs: set<char>, plain: string)
    requires t != [] && plain != [] && t[0] == plain[0] && t[0] !in cs
    requires StartsWith(Escaped(t[1..], cs), plain[1..]) <==> StartsWith(t[1..], plain[1..])
    requires StartsWith(t[1..], plain[1..]) ==>
               Escaped(t[1..], cs) == plain[1..] + Escaped(t[1..][|plain| - 1..], cs)
    ensures StartsWith(Escaped(t, cs), plain) <==> StartsWith(t, plain)
    ensures StartsWith(t, plain) ==> Escaped(t, cs) == plain + Escaped(t[|plain|..], cs)
  {
    var e := Escaped(t[1..], cs);
    assert Escaped(t, cs) == [t[0]] + e;
    assert Escaped(t, cs)[1..] == e;
    SplitPrefix(t, plain);
    SplitPrefix(Escaped(t, cs), plain);
    if StartsWith(t, plain) {
      assert t[1..][|plain| - 1..] == t[|plain|..];
      assert plain == [plain[0]] + plain[1..];
    }
  }

  lemma PlainHeadDiffers(t: string, cs: set<char>, plain: string)
    requires t != [] && plain != [] && t[0] != plain[0] && cs <= ANGLES && plain[0] !in MARKUP
    ensures !StartsWith(Escaped(t, cs), plain) && !StartsWith(t, plain)
  {
    SplitPrefix(t, plain);
    SplitPrefix(Escaped(t, cs), plain);
    assert Escaped(t, cs)[0] == if t[0] in cs then '&' else t[0];
  }

  // Text with no markup in it shows through the substitution.
  lemma {:induction false} PlainShowsThrough(t: string, cs: set<char>, plain: string)
    requires cs <= ANGLES && forall c :: c in plain ==> c !in MARKUP
    ensures StartsWith(Escaped(t, cs), plain) <==> StartsWith(t, plain)
    ensures StartsWith(t, plain) ==> Escaped(t, cs) == plain + Escaped(t[|plain|..], cs)
    decreases |plain|
  {
    if plain != [] && t != [] {
      if t[0] == plain[0] {
        PlainShowsThrough(t[1..], cs, plain[1..]);
        PlainHeadMatches(t, cs, plain);
      } else {
        PlainHeadDiffers(t, cs, plain);
      }
    }
  }

  // An unescaped `&` starts the entity in the escaped text exactly when it does in the text.
  lemma AmpersandStarts(rest: string, cs: set<char>, d: char)
    requires d in cs && cs <= ANGLES && StartsWith(rest, Tail(d))
    ensures ['&'] + Escaped(rest, cs) == Entity(d) + Escaped(rest[|Tail(d)|..], cs)
  {
    var after := Escaped(rest[|Tail(d)|..], cs);
    PlainShowsThrough(rest, cs, Tail(d));
    assert ['&'] + (Tail(d) + after) == (['&'] + Tail(d)) + after;
  }

  lemma SkipAmpersand(rest: string, tail: string, with: string)
    requires !StartsWith(rest, tail)
    ensures Replace(['&'] + rest, ['&'] + tail, with) == ['&'] + Replace(rest, ['&'] + tail, with)
  {
    SplitPrefix(['&'] + rest, ['&'] + tail);
    assert (['&'] + rest)[1..] == rest && (['&'] + tail)[1..] == tail;
    ReplaceSkip('&', rest, ['&'] + tail, with);
  }

  lemma AmpersandSkips(rest: string, cs: set<char>, d: char)
    requires d in cs && cs <= ANGLES && !StartsWith(rest, Tail(d))
    ensures Replace(['&'] + Escaped(rest, cs), Entity(d), [d]) == ['&'] + Replace(Escaped(rest, cs), Entity(d), [d])
    ensures Replace(['&'] + rest, Entity(d), [d]) == ['&'] + Replace(rest, Entity(d), [d])
  {
    PlainShowsThrough(rest, cs, Tail(d));
    SkipAmpersand(rest, Tail(d), [d]);
    SkipAmpersand(Escaped(rest, cs), Tail(d), [d]);
  }

  /**
   Replacing the entity of `d` undoes the escaping of `d`; it also replaces the entities that were spelled out in the
   text to begin with.
   */
  lemma {:induction false} AngleComesBack(t: string, cs: set<char>, d: char)
    requires d in cs && cs <= ANGLES
    ensures Replace(Escaped(t, cs), Entity(d), [d]) == Escaped(Replace(t, Entity(d), [d]), cs - {d})
    decreases |t|
  {
    var pat, less := Entity(d), cs - {d};
    if t != [] {
      var c, rest := t[0], t[1..];
      var e := Escaped(rest, cs);
      assert t == [c] + rest;
      if c == '&' {
        assert Escaped(t, cs) == ['&'] + e;
        if StartsWith(rest, Tail(d)) {
          var after := rest[|Tail(d)|..];
          AngleComesBack(after, cs, d);
          AmpersandStarts(rest, cs, d);
          assert t == pat + after;
          ReplaceHead(after, pat, [d]);
          ReplaceHead(Escaped(after, cs), pat, [d]);
          EscapedCons(d, Replace(after, pat, [d]), less);
        } else {
          AngleComesBack(rest, cs, d);
          AmpersandSkips(rest, cs, d);
          EscapedCons(c, Replace(rest, pat, [d]), less);
        }
      } else {
        AngleComesBack(rest, cs, d);
        PassOver([c], rest, pat, [d]);
        EscapedCons(c, Replace(rest, pat, [d]), less);
        if c == d {
          ReplaceHead(e, pat, [d]);
        } else if c in cs {
          OtherEntity(c, d, e, [d]);
        } else {
          PassOver([c], e, pat, [d]);
        }
      }
    }
  }

  lemma {:induction false} NothingEscaped(t: string)
    ensures Escaped(t, {}) == t
    decreases |t|
  {
    if t != [] {
      NothingEscaped(t[1..]);
      assert t == [t[0]] + t[1..];
    }
  }

  lemma AnglesComeBack(t: string)
    ensures Replace(Replace(Escaped(t, ANGLES), Entity('<'), "<"), Entity('>'), ">")
         == Replace(Replace(t, Entity('<'), "<"), Entity('>'), ">")
  {
    var u := Replace(t, Entity('<'), "<");
    AngleComesBack(t, ANGLES, '<');
    assert ANGLES - {'<'} == {'>'};
    AngleComesBack(u, {'>'}, '>');
    assert {'>'} - {'>'} == {};
    NothingEscaped(Replace(u, Entity('>'), ">"));
  }

  /** Decoding escaped text undoes the escaping, and then decodes what the text itself spelled out, except `&amp;`. */
  lemma DecodeAfterEscape(t: string)
    ensures DecodeAllEntities(EscapeHtml(t)) ==
            Replace(Replace(Replace(t, "&lt;", "<"), "&gt;", ">"), "&nbsp;", " ")
  {
    EscapeIsOneSubstitution(t);
    EscapedIsCalm(t);
    SafeDecoderKeepsCalm(EscapeHtml(t));
    AmpersandsComeBack(t);
    AnglesComeBack(t);
    assert Entity('<') == "&lt;" && Entity('>') == "&gt;";
  }

  /** Escaping and decoding give the text back exactly when it spells out none of these three entities itself. */
  lemma DecodeInvertsEscape(t: string)
    ensures DecodeAllEntities(EscapeHtml(t)) == t <==>
            !Contains(t, "&lt;") && !Contains(t, "&gt;") && !Contains(t, "&nbsp;")
  {
    DecodeAfterEscape(t);
    var u := Replace(t, "&lt;", "<");
    var v := Replace(u, "&gt;", ">");
    ReplaceShortens(t, "&lt;", "<");
    ReplaceShortens(u, "&gt;", ">");
    ReplaceShortens(v, "&nbsp;", " ");
    if !Contains(t, "&lt;") {
      ReplaceNone(t, "&lt;", "<");
      if !Contains(t, "&gt;") {
        ReplaceNone(t, "&gt;", ">");
        if !Contains(t, "&nbsp;") {
          ReplaceNone(t, "&nbsp;", " ");
        }
      }
    }
  }
}
