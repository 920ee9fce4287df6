/**
 What the safe decoder decodes: a text put together from characters and entities, piece by piece,
   and the texts that come
 back from numeric encoding.
 */
module Decoding {
  import opened Wrappers
  import opened Text
  import opened Formatter
  import opened Entities

  datatype Piece = Char(c: char) | Quot | Apos | Hex(digits: string) | Dec(digits: string)

  ghost function Source(p: Piece): string {
    match p
    case Char(c) => [c]
    case Quot => "&quot;"
    case Apos => "&apos;"
    case Hex(d) => "&#x" + d + ";"
    case Dec(d) => "&#" + d + ";"
  }

  ghost predicate AllDigits(d: string, hex: bool) {
    |d| > 0 && forall i :: 0 <= i < |d| ==> IsDigit(d[i], hex)
  }

  ghost predicate Proper(p: Piece) {
    match p
    case Char(c) => c != '&'
    case Quot => true
    case Apos => true
    case Hex(d) => AllDigits(d, true)
    case Dec(d) => AllDigits(d, false)
  }

  ghost predicate AllProper(ps: seq<Piece>) {
    forall i :: 0 <= i < |ps| ==> Proper(ps[i])
  }

  // The character a code stands for; an entity whose code is no character's stays as it is.
  ghost function Meaning(p: Piece): string
    requires Proper(p)
  {
    match p
    case Char(c) => [c]
    case Quot => "\""
    case Apos => "'"
    case Hex(d) => var c := FromCode(Number(d, true)); if c.Some? then [c.value] else Source(p)
    case Dec(d) => var c := FromCode(Number(d, false)); if c.Some? then [c.value] else Source(p)
  }

  ghost function Whole(ps: seq<Piece>): string {
    if ps == [] then [] else Source(ps[0]) + Whole(ps[1..])
  }

  ghost function Meanings(ps: seq<Piece>): string
    requires AllProper(ps)
  {
    if ps == [] then [] else Meaning(ps[0]) + Meanings(ps[1..])
  }

  // ----- Entities stand by themselves -----

  // An `&`, and a `;` at the end and nowhere before.
  ghost predicate Delimited(s: string) {
    |s| >= 2 && s[0] == '&' && s[|s| - 1] == ';' && (forall i :: 0 <= i < |s| - 1 ==> s[i] != ';') &&
    forall i :: 1 <= i < |s| ==> s[i] != '&'
  }

  lemma SourcesAreDelimited(p: Piece)
    requires Proper(p) && !p.Char?
    ensures Delimited(Source(p))
  {
    var s := Source(p);
    match p
    case Hex(d) =>
      assert forall i :: 3 <= i < |s| - 1 ==> s[i] == d[i - 3] && IsDigit(d[i - 3], true);
    case Dec(d) =>
      assert forall i :: 2 <= i < |s| - 1 ==> s[i] == d[i - 2] && IsDigit(d[i - 2], false);
    case Quot =>
    case Apos =>
  }

  lemma DelimitedMatches(s: string, rest: string, pat: string)
    requires Delimited(s) && Delimited(pat) && StartsWith(s + rest, pat)
    ensures s == pat
  {
    var t := s + rest;
    assert forall i :: 0 <= i < |pat| ==> t[i] == t[..|pat|][i] == pat[i];
    assert forall i :: 0 <= i < |s| ==> t[i] == s[i];
    var k := if |pat| < |s| then |pat| - 1 else |s| - 1;
    assert t[k] == s[k] == pat[k];
    assert |s| == |pat|;
  }

  // ----- One replacement -----

  ghost function Rewrite(p: Piece, pat: string, c: char): Piece {
    if Source(p) == pat then Char(c) else p
  }

  ghost function RewriteAll(ps: seq<Piece>, pat: string, c: char): (r: seq<Piece>)
    ensures |r| == |ps| && forall i :: 0 <= i < |ps| ==> r[i] == Rewrite(ps[i], pat, c)
  {
    if ps == [] then [] else [Rewrite(ps[0], pat, c)] + RewriteAll(ps[1..], pat, c)
  }

  lemma ReplaceOnePiece(p: Piece, rest: string, pat: string, c: char)
    requires Proper(p) && Delimited(pat)
    ensures Replace(Source(p) + rest, pat, [c]) == Source(Rewrite(p, pat, c)) + Replace(rest, pat, [c])
  {
    var s := Source(p);
    if s == pat {
      ReplaceHead(rest, pat, [c]);
    } else if p.Char? {
      PassOver(s, rest, pat, [c]);
    } else {
      SourcesAreDelimited(p);
      if StartsWith(s + rest, pat) {
        DelimitedMatches(s, rest, pat);
        assert false;
      }
      assert s + rest == ['&'] + (s[1..] + rest);
      ReplaceSkip('&', s[1..] + rest, pat, [c]);
      PassOver(s[1..], rest, pat, [c]);
      assert ['&'] + (s[1..] + Replace(rest, pat, [c])) == s + Replace(rest, pat, [c]);
    }
  }

  lemma {:induction false} ReplacePieces(ps: seq<Piece>, pat: string, c: char)
    requires AllProper(ps) && Delimited(pat) && c != '&'
    ensures Replace(Whole(ps), pat, [c]) == Whole(RewriteAll(ps, pat, c)) && AllProper(RewriteAll(ps, pat, c))
    decreases |ps|
  {
    if ps != [] {
      ReplacePieces(ps[1..], pat, c);
      ReplaceOnePiece(ps[0], Whole(ps[1..]), pat, c);
    }
  }

  // ----- One numeric pass -----

  function Prefix(hex: bool): string {
    if hex then "&#x" else "&#"
  }

  // What a pass over hexadecimal or decimal entities makes of a piece.
  ghost function Decoded(p: Piece, hex: bool): Piece
    requires Proper(p)
  {
    if (hex && p.Hex?) || (!hex && p.Dec?) then
      var c := FromCode(Number(p.digits, hex));
      if c.Some? then Char(c.value) else p
    else p
  }

  ghost function DecodedAll(ps: seq<Piece>, hex: bool): (r: seq<Piece>)
    requires AllProper(ps)
    ensures |r| == |ps| && forall i :: 0 <= i < |ps| ==> r[i] == Decoded(ps[i], hex)
  {
    if ps == [] then [] else [Decoded(ps[0], hex)] + DecodedAll(ps[1..], hex)
  }

  lemma SkipFirst(s: string, prefix: string, hex: bool)
    requires s != [] && prefix != []
    requires StartsWith(s, prefix) ==> DigitRun(s, |prefix|, hex) == |prefix|
    ensures DecodeNumeric(s, prefix, hex) == [s[0]] + DecodeNumeric(s[1..], prefix, hex)
  {
  }

  lemma MatchBegins(s: string, pat: string)
    requires s != [] && pat != []
    ensures StartsWith(s, pat) ==> s[0] == pat[0]
  {
    if StartsWith(s, pat) {
      assert s[..|pat|][0] == s[0];
    }
  }

  lemma Rejoined(u: string, d: string)
    requires u != []
    ensures [u[0]] + (u[1..] + d) == u + d
  {
  }

  // What does not begin an entity is copied.
  lemma CopyFirst(c: char, rest: string, hex: bool)
    requires c != '&'
    ensures DecodeNumeric([c] + rest, Prefix(hex), hex) == [c] + DecodeNumeric(rest, Prefix(hex), hex)
  {
    var s := [c] + rest;
    assert s[1..] == rest;
    MatchBegins(s, Prefix(hex));
    SkipFirst(s, Prefix(hex), hex);
  }

  lemma {:induction false} NumericPassOver(u: string, rest: string, hex: bool)
    requires '&' !in u
    ensures DecodeNumeric(u + rest, Prefix(hex), hex) == u + DecodeNumeric(rest, Prefix(hex), hex)
    decreases |u|
  {
    if u == [] {
      assert u + rest == rest;
    } else {
      NumericPassOver(u[1..], rest, hex);
      CopyFirst(u[0], u[1..] + rest, hex);
      Rejoined(u, rest);
      Rejoined(u, DecodeNumeric(rest, Prefix(hex), hex));
    }
  }

  lemma {:induction false} DigitRunEnds(s: string, from: nat, stop: nat, hex: bool)
    requires from <= stop < |s| && !IsDigit(s[stop], hex) && forall i :: from <= i < stop ==> IsDigit(s[i], hex)
    ensures DigitRun(s, from, hex) == stop
    decreases stop - from
  {
    if from < stop {
      DigitRunEnds(s, from + 1, stop, hex);
    }
  }

  lemma MatchedEntity(d: string, rest: string, hex: bool)
    requires AllDigits(d, hex)
    ensures var c := FromCode(Number(d, hex));
            DecodeNumeric(Prefix(hex) + d + ";" + rest, Prefix(hex), hex) ==
            (if c.Some? then [c.value] else Prefix(hex) + d + ";") + DecodeNumeric(rest, Prefix(hex), hex)
  {
    var prefix := Prefix(hex);
    var src := prefix + d + ";";
    var s := src + rest;
    var end := |prefix| + |d|;
    assert |src| == end + 1 && s[..|src|] == src && s[|src|..] == rest;
    assert s[..|prefix|] == prefix && s[end] == ';';
    assert forall i :: |prefix| <= i < end ==> s[i] == d[i - |prefix|];
    DigitRunEnds(s, |prefix|, end, hex);
    assert s[|prefix|..end] == d;
  }

  // An entity of another kind does not match at its start.
  lemma OtherKindIsNoMatch(p: Piece, rest: string, hex: bool)
    requires Proper(p) && !p.Char? && !(hex && p.Hex?) && !(!hex && p.Dec?)
    ensures var s := Source(p) + rest;
            StartsWith(s, Prefix(hex)) ==> !hex && DigitRun(s, 2, false) == 2
  {
    var s := Source(p) + rest;
    assert |Source(p)| > 2 && s[1] == Source(p)[1] && s[2] == Source(p)[2];
    assert p.Dec? ==> s[2] == p.digits[0] && IsDigit(s[2], false);
    assert p.Hex? ==> s[2] == 'x';
    assert StartsWith(s, Prefix(hex)) ==> s[1] == Prefix(hex)[1] by {
      if StartsWith(s, Prefix(hex)) {
        assert s[1] == s[..|Prefix(hex)|][1];
      }
    }
    assert StartsWith(s, "&#x") ==> s[2] == 'x' by {
      if StartsWith(s, "&#x") {
        assert s[2] == s[..3][2];
      }
    }
  }

  lemma NoMatchSkips(tail: string, rest: string, hex: bool)
    requires '&' !in tail
    requires var s := ['&'] + (tail + rest);
             StartsWith(s, Prefix(hex)) ==> DigitRun(s, |Prefix(hex)|, hex) == |Prefix(hex)|
    ensures DecodeNumeric(['&'] + (tail + rest), Prefix(hex), hex) ==
            ['&'] + (tail + DecodeNumeric(rest, Prefix(hex), hex))
  {
    var s := ['&'] + (tail + rest);
    assert s[1..] == tail + rest;
    SkipFirst(s, Prefix(hex), hex);
    NumericPassOver(tail, rest, hex);
  }

  lemma OtherKind(p: Piece, rest: string, hex: bool)
    requires Proper(p) && !p.Char? && !(hex && p.Hex?) && !(!hex && p.Dec?)
    ensures DecodeNumeric(Source(p) + rest, Prefix(hex), hex) == Source(p) + DecodeNumeric(rest, Prefix(hex), hex)
  {
    SourcesAreDelimited(p);
    OtherKindIsNoMatch(p, rest, hex);
    var tail := Source(p)[1..];
    assert Source(p)[0] == '&';
    Rejoined(Source(p), rest);
    NoMatchSkips(tail, rest, hex);
    Rejoined(Source(p), DecodeNumeric(rest, Prefix(hex), hex));
  }

  lemma DecodeOnePiece(p: Piece, rest: string, hex: bool)
    requires Proper(p)
    ensures DecodeNumeric(Source(p) + rest, Prefix(hex), hex) ==
            Source(Decoded(p, hex)) + DecodeNumeric(rest, Prefix(hex), hex)
  {
    if p.Char? {
      NumericPassOver(Source(p), rest, hex);
    } else if (hex && p.Hex?) || (!hex && p.Dec?) {
      MatchedEntity(p.digits, rest, hex);
    } else {
      OtherKind(p, rest, hex);
    }
  }

  lemma {:induction false} DecodePieces(ps: seq<Piece>, hex: bool)
    requires AllProper(ps)
    ensures DecodeNumeric(Whole(ps), Prefix(hex), hex) == Whole(DecodedAll(ps, hex))
    decreases |ps|
  {
    if ps != [] {
      DecodePieces(ps[1..], hex);
      DecodeOnePiece(ps[0], Whole(ps[1..]), hex);
    }
  }

  // ----- The whole decoder -----

  // No hexadecimal entity stands for an ampersand: that would make the next pass see an entity that is not there yet.
  ghost predicate NoHexAmpersand(ps: seq<Piece>) {
    forall i :: 0 <= i < |ps| && ps[i].Hex? && Proper(ps[i]) ==> Number(ps[i].digits, true) != 38
  }

  ghost function Named(p: Piece): Piece {
    Rewrite(Rewrite(Rewrite(p, "&quot;", '"'), "&#39;", '\''), "&apos;", '\'')
  }

  lemma ThirtyNine()
    ensures Number("39", false) == 39
  {
    assert Number("", false) == 0;
    assert "39"[..1] == "3" && "3"[..0] == "";
    assert Number("3", false) == 3;
  }

  lemma NumericIsNotNamed(p: Piece)
    requires Proper(p) && (p.Hex? || p.Dec?)
    ensures Source(p) != "&quot;" && Source(p) != "&apos;"
    ensures Source(p) == "&#39;" <==> p == Dec("39")
  {
    var s := Source(p);
    assert s[1] == '#';
    if p.Hex? {
      assert s[2] == 'x';
    } else if s == "&#39;" {
      assert s[2..|s| - 1] == p.digits && s[2..|s| - 1] == "39";
    }
  }

  lemma NamedMeans(p: Piece)
    requires Proper(p) && (p.Hex? ==> Number(p.digits, true) != 38)
    ensures Proper(Named(p)) && Proper(Decoded(Named(p), true))
    ensures Source(Decoded(Decoded(Named(p), true), false)) == Meaning(p)
  {
    if p.Hex? || p.Dec? {
      NumericIsNotNamed(p);
      ThirtyNine();
    }
  }

  lemma {:induction false} PiecesMean(ps: seq<Piece>, named: seq<Piece>, hexed: seq<Piece>, done: seq<Piece>)
    requires AllProper(ps) && NoHexAmpersand(ps)
    requires |named| == |hexed| == |done| == |ps|
    requires forall i :: 0 <= i < |ps| ==> named[i] == Named(ps[i]) && Proper(named[i])
    requires forall i :: 0 <= i < |ps| ==> hexed[i] == Decoded(named[i], true) && Proper(hexed[i])
    requires forall i :: 0 <= i < |ps| ==> done[i] == Decoded(hexed[i], false)
    ensures Whole(done) == Meanings(ps)
    decreases |ps|
  {
    if ps != [] {
      NamedMeans(ps[0]);
      PiecesMean(ps[1..], named[1..], hexed[1..], done[1..]);
    }
  }

  lemma ThreeReplacements(ps: seq<Piece>, a: string, x: char, b: string, y: char, c: string, z: char)
    requires AllProper(ps) && Delimited(a) && Delimited(b) && Delimited(c) && x != '&' && y != '&' && z != '&'
    ensures var r := RewriteAll(RewriteAll(RewriteAll(ps, a, x), b, y), c, z);
            Replace(Replace(Replace(Whole(ps), a, [x]), b, [y]), c, [z]) == Whole(r) && AllProper(r)
  {
    ReplacePieces(ps, a, x);
    ReplacePieces(RewriteAll(ps, a, x), b, y);
    ReplacePieces(RewriteAll(RewriteAll(ps, a, x), b, y), c, z);
  }

  ghost function NamedAll(ps: seq<Piece>): (r: seq<Piece>)
    ensures |r| == |ps| && forall i :: 0 <= i < |ps| ==> r[i] == Named(ps[i])
  {
    RewriteAll(RewriteAll(RewriteAll(ps, "&quot;", '"'), "&#39;", '\''), "&apos;", '\'')
  }

  lemma NamedPass(ps: seq<Piece>)
    requires AllProper(ps)
    ensures DecodeNamed(Whole(ps)) == Whole(NamedAll(ps)) && AllProper(NamedAll(ps))
  {
    ThreeReplacements(ps, "&quot;", '"', "&#39;", '\'', "&apos;", '\'');
  }

  lemma AfterNamed(ps: seq<Piece>, named: seq<Piece>)
    requires AllProper(ps) && NoHexAmpersand(ps) && AllProper(named)
    requires |named| == |ps| && forall i :: 0 <= i < |ps| ==> named[i] == Named(ps[i])
    ensures DecodeNumeric(DecodeNumeric(Whole(named), Prefix(true), true), Prefix(false), false) == Meanings(ps)
  {
    var hexed := DecodedAll(named, true);
    DecodePieces(named, true);
    forall i | 0 <= i < |ps|
      ensures Proper(hexed[i])
    {
      NamedMeans(ps[i]);
    }
    DecodePieces(hexed, false);
    PiecesMean(ps, named, hexed, DecodedAll(hexed, false));
  }

  /**
   The safe decoder turns each entity of a text into its character, in one go, and leaves all other characters alone.
   */
  lemma DecodesPieceByPiece(ps: seq<Piece>)
    requires AllProper(ps) && NoHexAmpersand(ps)
    ensures DecodeSafeEntities(Whole(ps)) == Meanings(ps)
  {
    NamedPass(ps);
    AfterNamed(ps, NamedAll(ps));
  }

  // ----- Numerals -----

  function Base(hex: bool): nat {
    if hex then 16 else 10
  }

  const HEX_NUMERALS := "0123456789abcdef"

  ghost function Numeral(n: nat, hex: bool): string
    decreases n
  {
    (if n < Base(hex) then [] else Numeral(n / Base(hex), hex)) + [HEX_NUMERALS[n % Base(hex)]]
  }

  lemma DigitsAreTheirValues(k: nat, hex: bool)
    requires k < Base(hex)
    ensures IsDigit(HEX_NUMERALS[k], hex) && DigitValue(HEX_NUMERALS[k]) == k
  {
  }

  // The same hexadecimal digit, in either case.
  ghost predicate SameDigit(c: char, d: char) {
    c == d || ('a' <= c <= 'f' && c as int == d as int + 32) || ('a' <= d <= 'f' && d as int == c as int + 32)
  }

  /** The case of hexadecimal digits makes no difference to a number. */
  lemma {:induction false} NumberIgnoresCase(d: string, e: string)
    requires |d| == |e| && forall i :: 0 <= i < |d| ==> IsHexDigit(d[i]) && IsHexDigit(e[i]) && SameDigit(d[i], e[i])
    ensures Number(d, true) == Number(e, true)
    decreases |d|
  {
    if d != [] {
      var n := |d| - 1;
      NumberIgnoresCase(d[..n], e[..n]);
      assert DigitValue(d[n]) == DigitValue(e[n]);
    }
  }

  lemma OneMoreDigit(front: string, last: char, hex: bool)
    requires (front == [] || AllDigits(front, hex)) && IsDigit(last, hex)
    ensures AllDigits(front + [last], hex)
    ensures Number(front + [last], hex) == Base(hex) * Number(front, hex) + DigitValue(last)
  {
    assert (front + [last])[..|front|] == front;
  }

  lemma QuotientAndRemainder(n: nat, hex: bool)
    ensures n == Base(hex) * (n / Base(hex)) + n % Base(hex) && n % Base(hex) < Base(hex)
    ensures n < Base(hex) ==> n / Base(hex) == 0
  {
    if hex {
      assert n == 16 * (n / 16) + n % 16;
    } else {
      assert n == 10 * (n / 10) + n % 10;
    }
  }

  // A numeral for the quotient and a digit for the remainder.
  lemma LastDigitAdded(front: string, quotient: nat, remainder: nat, hex: bool)
    requires remainder < Base(hex) && (if front == [] then quotient == 0 else AllDigits(front, hex))
    requires forall i :: 0 <= i < |front| ==> IsDigit(front[i], hex)
    requires Number(front, hex) == quotient
    ensures AllDigits(front + [HEX_NUMERALS[remainder]], hex)
    ensures Number(front + [HEX_NUMERALS[remainder]], hex) == Base(hex) * quotient + remainder
  {
    DigitsAreTheirValues(remainder, hex);
    OneMoreDigit(front, HEX_NUMERALS[remainder], hex);
  }

  lemma {:induction false} NumeralReadsBack(n: nat, hex: bool)
    ensures AllDigits(Numeral(n, hex), hex) && Number(Numeral(n, hex), hex) == n
    decreases n
  {
    var quotient, remainder := n / Base(hex), n % Base(hex);
    QuotientAndRemainder(n, hex);
    if n < Base(hex) {
      LastDigitAdded([], quotient, remainder, hex);
    } else {
      NumeralReadsBack(quotient, hex);
      LastDigitAdded(Numeral(quotient, hex), quotient, remainder, hex);
    }
  }

  ghost function Encoding(c: char, hex: bool): Piece {
    if hex then Hex(Numeral(c as int, hex)) else Dec(Numeral(c as int, hex))
  }

  ghost function Encoded(t: string, hex: bool): (ps: seq<Piece>)
    ensures |ps| == |t| && forall i :: 0 <= i < |t| ==> ps[i] == Encoding(t[i], hex)
  {
    if t == [] then [] else [Encoding(t[0], hex)] + Encoded(t[1..], hex)
  }

  lemma CodeMeans(d: string, c: char, hex: bool)
    requires AllDigits(d, hex) && Number(d, hex) == c as int
    ensures var p := if hex then Hex(d) else Dec(d);
            Proper(p) && Meaning(p) == [c]
  {
  }

  lemma EncodingMeans(c: char, hex: bool)
    ensures var p := Encoding(c, hex);
            Proper(p) && Meaning(p) == [c] && (p.Hex? ==> Number(p.digits, true) == c as int)
  {
    NumeralReadsBack(c as int, hex);
    CodeMeans(Numeral(c as int, hex), c, hex);
  }

  // Pieces that stand for the characters of a text, one each.
  lemma {:induction false} PiecesOfAText(t: string, ps: seq<Piece>)
    requires |ps| == |t| && AllProper(ps) && forall i :: 0 <= i < |t| ==> Meaning(ps[i]) == [t[i]]
    ensures Meanings(ps) == t
    decreases |t|
  {
    if t != [] {
      PiecesOfAText(t[1..], ps[1..]);
      assert t == [t[0]] + t[1..];
    }
  }

  lemma EncodedMeans(t: string, hex: bool)
    ensures AllProper(Encoded(t, hex)) && Meanings(Encoded(t, hex)) == t
    ensures !hex ==> NoHexAmpersand(Encoded(t, hex))
  {
    var ps := Encoded(t, hex);
    forall i | 0 <= i < |t|
      ensures Proper(ps[i]) && Meaning(ps[i]) == [t[i]]
    {
      EncodingMeans(t[i], hex);
    }
    PiecesOfAText(t, ps);
  }

  /** Every text comes back from its encoding by decimal entities. */
  lemma DecimalEncodingDecodes(t: string)
    ensures DecodeSafeEntities(Whole(Encoded(t, false))) == t
  {
    EncodedMeans(t, false);
    DecodesPieceByPiece(Encoded(t, false));
  }

  lemma HexPieceIsDecodedOnce(c: char)
    ensures var p := Encoding(c, true);
            Proper(p) && Decoded(p, true) == Char(c) && |Source(p)| > 2 && Source(p)[1] == '#' && Source(p)[2] == 'x'
  {
    EncodingMeans(c, true);
  }

  lemma {:induction false} CharsAreTheText(t: string, ps: seq<Piece>)
    requires |ps| == |t| && forall i :: 0 <= i < |t| ==> ps[i] == Char(t[i])
    ensures Whole(ps) == t
    decreases |t|
  {
    if t != [] {
      CharsAreTheText(t[1..], ps[1..]);
      assert t == [t[0]] + t[1..];
    }
  }

  lemma HexPassGivesTheText(t: string)
    ensures AllProper(Encoded(t, true)) && DecodeNumeric(Whole(Encoded(t, true)), "&#x", true) == t
  {
    EncodedMeans(t, true);
    var ps := Encoded(t, true);
    DecodePieces(ps, true);
    forall i | 0 <= i < |t|
      ensures DecodedAll(ps, true)[i] == Char(t[i])
    {
      HexPieceIsDecodedOnce(t[i]);
    }
    CharsAreTheText(t, DecodedAll(ps, true));
  }

  lemma HexStays(p: Piece)
    requires Proper(p) && p.Hex?
    ensures Named(p) == p
  {
    NumericIsNotNamed(p);
  }

  lemma NamedPassKeepsHex(ps: seq<Piece>)
    requires AllProper(ps) && forall i :: 0 <= i < |ps| ==> ps[i].Hex?
    ensures DecodeNamed(Whole(ps)) == Whole(ps)
  {
    NamedPass(ps);
    var named := NamedAll(ps);
    forall i | 0 <= i < |ps|
      ensures named[i] == ps[i]
    {
      HexStays(ps[i]);
    }
    assert named == ps;
  }

  /**
   A text encoded by hexadecimal entities comes back with the decimal entities that it spells out itself decoded as
   well, because the decimal pass runs over what the hexadecimal pass has made.
   */
  lemma HexEncodingDecodesTwice(t: string)
    ensures DecodeSafeEntities(Whole(Encoded(t, true))) == DecodeNumeric(t, "&#", false)
  {
    EncodedMeans(t, true);
    NamedPassKeepsHex(Encoded(t, true));
    HexPassGivesTheText(t);
  }

  // ----- Dropping brackets -----

  ghost predicate IsAngle(c: char) {
    c == '<' || c == '>'
  }

  ghost predicate Increasing(at: seq<nat>) {
    forall i, j :: 0 <= i < j < |at| ==> at[i] < at[j]
  }

  // `at` are the places in `s` of the characters of `r`, none of them a bracket.
  ghost predicate Places(s: string, r: string, at: seq<nat>) {
    |at| == |r| && forall i :: 0 <= i < |at| ==> at[i] < |s| && r[i] == s[at[i]] && !IsAngle(s[at[i]])
  }

  ghost predicate Complete(s: string, at: seq<nat>) {
    forall k :: 0 <= k < |s| && !IsAngle(s[k]) ==> k in at
  }

  ghost function Shifted(at: seq<nat>): (r: seq<nat>)
    ensures |r| == |at| && forall i :: 0 <= i < |at| ==> r[i] == at[i] + 1
  {
    seq(|at|, i requires 0 <= i < |at| => at[i] + 1)
  }

  lemma ShiftedPlaces(s: string, r: string, at: seq<nat>)
    requires s != [] && Places(s[1..], r, at) && Increasing(at)
    ensures Places(s, r, Shifted(at)) && Increasing(Shifted(at))
  {
  }

  lemma ShiftedComplete(s: string, at: seq<nat>, k: nat)
    requires s != [] && Complete(s[1..], at) && 0 < k < |s| && !IsAngle(s[k])
    ensures k in Shifted(at)
  {
    assert s[1..][k - 1] == s[k];
    var i :| 0 <= i < |at| && at[i] == k - 1;
    assert Shifted(at)[i] == k;
  }

  lemma FirstPlace(s: string, r: string, at: seq<nat>)
    requires s != [] && !IsAngle(s[0]) && Places(s, r, at) && Increasing(at) && forall i :: 0 <= i < |at| ==> at[i] > 0
    ensures Places(s, [s[0]] + r, [0] + at) && Increasing([0] + at)
  {
  }

  lemma PlacesOfTheWhole(s: string, r: string, later: seq<nat>) returns (at: seq<nat>)
    requires s != [] && Places(s[1..], r, later) && Increasing(later) && Complete(s[1..], later)
    ensures var kept := if IsAngle(s[0]) then [] else [s[0]];
            Places(s, kept + r, at) && Increasing(at) && Complete(s, at)
  {
    ShiftedPlaces(s, r, later);
    forall k | 0 < k < |s| && !IsAngle(s[k])
      ensures k in Shifted(later)
    {
      ShiftedComplete(s, later, k);
    }
    if IsAngle(s[0]) {
      assert [] + r == r;
      at := Shifted(later);
    } else {
      FirstPlace(s, r, Shifted(later));
      at := [0] + Shifted(later);
    }
  }

  /** What is left are the characters that are no brackets: all of them, and in their order. */
  lemma {:induction false} DroppingKeepsTheRest(s: string) returns (at: seq<nat>)
    ensures Places(s, DropAngles(s), at) && Increasing(at) && Complete(s, at)
    decreases |s|
  {
    if s == [] {
      at := [];
    } else {
      var later := DroppingKeepsTheRest(s[1..]);
      at := PlacesOfTheWhole(s, DropAngles(s[1..]), later);
    }
  }
}
