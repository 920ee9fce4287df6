/** The store of one-time QR login tokens. */
module QrToken {
  import opened Wrappers

  const QR_TOKEN_TTL_MS: nat := 5 * 60 * 1000
  const QR_TOKEN_BYTES := 32

  datatype Entry = Entry(createdAt: nat, used: bool)

  datatype AuthError = UnknownToken | AlreadyUsed | TokenExpired

  const HEX_DIGITS := "0123456789abcdef"

  ghost function Hex(buf: seq<Byte>): string {
    if buf == [] then []
    else
      var n := |buf| - 1;
      Hex(buf[..n]) + [HEX_DIGITS[buf[n] / 16], HEX_DIGITS[buf[n] % 16]]
  }

  lemma DigitsDiffer(a: nat, b: nat)
    requires a < 16 && b < 16 && HEX_DIGITS[a] == HEX_DIGITS[b]
    ensures a == b
  {
  }

  lemma {:induction false} HexLength(buf: seq<Byte>)
    ensures |Hex(buf)| == 2 * |buf|
  {
    if buf != [] {
      HexLength(buf[..|buf| - 1]);
    }
  }

  lemma HexEnd(buf: seq<Byte>)
    requires buf != []
    ensures var n := |buf| - 1;
            |Hex(buf)| == 2 * n + 2 && Hex(buf)[..2 * n] == Hex(buf[..n]) &&
            Hex(buf)[2 * n] == HEX_DIGITS[buf[n] / 16] && Hex(buf)[2 * n + 1] == HEX_DIGITS[buf[n] % 16]
  {
    HexLength(buf);
    HexLength(buf[..|buf| - 1]);
  }

  lemma SameDigitsSameByte(a: Byte, b: Byte)
    requires HEX_DIGITS[a / 16] == HEX_DIGITS[b / 16] && HEX_DIGITS[a % 16] == HEX_DIGITS[b % 16]
    ensures a == b
  {
    DigitsDiffer(a / 16, b / 16);
    DigitsDiffer(a % 16, b % 16);
  }

  /** Different random bytes make different tokens. */
  lemma {:induction false} HexIsInjective(a: seq<Byte>, b: seq<Byte>)
    requires Hex(a) == Hex(b)
    ensures a == b
    decreases |a|
  {
    HexLength(a);
    HexLength(b);
    if a != [] {
      var n := |a| - 1;
      HexEnd(a);
      HexEnd(b);
      SameDigitsSameByte(a[n], b[n]);
      HexIsInjective(a[..n], b[..n]);
      assert a == a[..n] + [a[n]] && b == b[..n] + [b[n]];
    }
  }

  // The value of a lower-case hexadecimal digit.
  ghost function NibbleOf(c: char): nat {
    if '0' <= c <= '9' then c as int - '0' as int else if 'a' <= c <= 'f' then c as int - 'a' as int + 10 else 0
  }

  lemma DigitsReadBack(n: nat)
    requires n < 16
    ensures NibbleOf(HEX_DIGITS[n]) == n && ('0' <= HEX_DIGITS[n] <= '9' || 'a' <= HEX_DIGITS[n] <= 'f')
  {
  }

  lemma FrontAt(s: string, front: string, k: nat)
    requires |front| <= |s| && s[..|front|] == front && k < |front|
    ensures s[k] == front[k]
  {
    assert s[..|front|][k] == s[k];
  }

  // The two digits of one byte.
  ghost predicate DigitsAt(h: string, i: nat, b: Byte) {
    2 * i + 1 < |h| && h[2 * i] == HEX_DIGITS[b / 16] && h[2 * i + 1] == HEX_DIGITS[b % 16]
  }

  lemma DigitsKept(h: string, front: string, i: nat, b: Byte)
    requires |front| <= |h| && h[..|front|] == front && DigitsAt(front, i, b)
    ensures DigitsAt(h, i, b)
  {
    FrontAt(h, front, 2 * i);
    FrontAt(h, front, 2 * i + 1);
  }

  lemma LastDigits(buf: seq<Byte>)
    requires buf != []
    ensures DigitsAt(Hex(buf), |buf| - 1, buf[|buf| - 1])
    ensures |Hex(buf[..|buf| - 1])| <= |Hex(buf)| && Hex(buf)[..|Hex(buf[..|buf| - 1])|] == Hex(buf[..|buf| - 1])
  {
    HexEnd(buf);
    HexLength(buf[..|buf| - 1]);
  }

  lemma {:induction false} HexAt(buf: seq<Byte>, i: nat)
    requires i < |buf|
    ensures DigitsAt(Hex(buf), i, buf[i])
    decreases |buf|
  {
    LastDigits(buf);
    var front := buf[..|buf| - 1];
    if i < |front| {
      HexAt(front, i);
      DigitsKept(Hex(buf), Hex(front), i, front[i]);
    }
  }

  /** A token is its bytes in lower-case hexadecimal: two digits each, in order, the higher first. */
  lemma HexReadsBack(buf: seq<Byte>, i: nat)
    requires i < |buf|
    ensures |Hex(buf)| == 2 * |buf|
    ensures var high, low := Hex(buf)[2 * i], Hex(buf)[2 * i + 1];
            buf[i] == 16 * NibbleOf(high) + NibbleOf(low) &&
            ('0' <= high <= '9' || 'a' <= high <= 'f') && ('0' <= low <= '9' || 'a' <= low <= 'f')
  {
    HexAt(buf, i);
    HexLength(buf);
    DigitsReadBack(buf[i] / 16);
    DigitsReadBack(buf[i] % 16);
  }

  ghost predicate Expired(e: Entry, now: nat) {
    now > e.createdAt + QR_TOKEN_TTL_MS
  }

  ghost predicate Accepts(tokens: map<string, Entry>, token: string, now: nat) {
    token in tokens && !tokens[token].used && !Expired(tokens[token], now)
  }

  ghost function Consumed(tokens: map<string, Entry>, token: string, now: nat): map<string, Entry> {
    if Accepts(tokens, token, now) then tokens[token := Entry(tokens[token].createdAt, true)] else tokens
  }

  ghost function Pruned(tokens: map<string, Entry>, now: nat): map<string, Entry> {
    map token | token in tokens && !Expired(tokens[token], now) :: tokens[token]
  }

  class QrTokenStore {
    var tokens: map<string, Entry>

    constructor ()
      ensures tokens == map[]
    {
      tokens := map[];
    }

    method GenerateWithExpiry(buf: seq<Byte>, now: nat) returns (token: string, expiresAt: nat)
      requires |buf| == QR_TOKEN_BYTES
      modifies this
      ensures token == Hex(buf) && |token| == 64 && expiresAt == now + 300_000
      ensures tokens == old(tokens)[token := Entry(now, false)]
    {
      token := "";
      var i := 0;
      while i < |buf|
        invariant 0 <= i <= |buf| && token == Hex(buf[..i])
      {
        assert buf[..i + 1][..i] == buf[..i];
        token := token + [HEX_DIGITS[buf[i] / 16], HEX_DIGITS[buf[i] % 16]];
        i := i + 1;
      }
      assert buf[..i] == buf;
      HexLength(buf);
      tokens := tokens[token := Entry(now, false)];
      expiresAt := now + QR_TOKEN_TTL_MS;
    }

    method ValidateAndConsume(token: string, now: nat) returns (r: Result<(), AuthError>)
      modifies this
      ensures r.Ok? <==> Accepts(old(tokens), token, now)
      ensures tokens == Consumed(old(tokens), token, now)
      ensures r == Err(UnknownToken) <==> token !in old(tokens)
      ensures r == Err(AlreadyUsed) <==> token in old(tokens) && old(tokens)[token].used
      ensures r == Err(TokenExpired) <==>
              token in old(tokens) && !old(tokens)[token].used && now > old(tokens)[token].createdAt + 300_000
    {
      if token !in tokens {
        return Err(UnknownToken);
      }
      var entry := tokens[token];
      if entry.used {
        return Err(AlreadyUsed);
      }
      var elapsed := now - entry.createdAt;
      if elapsed > QR_TOKEN_TTL_MS {
        return Err(TokenExpired);
      }
      tokens := tokens[token := entry.(used := true)];
      return Ok(());
    }

    method Cleanup(now: nat)
      modifies this
      ensures tokens == Pruned(old(tokens), now)
      ensures forall token :: token in tokens <==>
                token in old(tokens) && now <= old(tokens)[token].createdAt + 300_000
      ensures forall token :: token in tokens ==> tokens[token] == old(tokens)[token]
    {
      tokens := map token | token in tokens && now - tokens[token].createdAt <= QR_TOKEN_TTL_MS :: tokens[token];
    }
  }

  // ----- Runs -----

  datatype Call = Generate(token: string, at: nat) | Validate(token: string, at: nat) | Cleanup(at: nat)

  ghost function Next(tokens: map<string, Entry>, c: Call): map<string, Entry> {
    match c
    case Generate(token, at) => tokens[token := Entry(at, false)]
    case Validate(token, at) => Consumed(tokens, token, at)
    case Cleanup(at) => Pruned(tokens, at)
  }

  // One verdict for each call: whether it was a validation that accepted.
  ghost function Verdicts(tokens: map<string, Entry>, cs: seq<Call>): (v: seq<bool>)
    ensures |v| == |cs|
    decreases |cs|
  {
    if cs == [] then []
    else [cs[0].Validate? && Accepts(tokens, cs[0].token, cs[0].at)] + Verdicts(Next(tokens, cs[0]), cs[1..])
  }

  // The reference: when each token was made and which have been accepted.  It has no clean-up.
  datatype Record = Record(born: map<string, nat>, spent: set<string>)

  ghost predicate ShouldAccept(r: Record, token: string, now: nat) {
    token in r.born && token !in r.spent && now <= r.born[token] + QR_TOKEN_TTL_MS
  }

  ghost function Remember(r: Record, c: Call): Record {
    match c
    case Generate(token, at) => r.(born := r.born[token := at])
    case Validate(token, at) => if ShouldAccept(r, token, at) then r.(spent := r.spent + {token}) else r
    case Cleanup(_) => r
  }

  ghost function Expected(r: Record, cs: seq<Call>): (v: seq<bool>)
    ensures |v| == |cs|
    decreases |cs|
  {
    if cs == [] then []
    else [cs[0].Validate? && ShouldAccept(r, cs[0].token, cs[0].at)] + Expected(Remember(r, cs[0]), cs[1..])
  }

  ghost predicate Monotone(cs: seq<Call>, start: nat) {
    cs != [] ==> start <= cs[0].at && Monotone(cs[1..], cs[0].at)
  }

  // No token is generated twice, and none of `used` is.
  ghost predicate Fresh(cs: seq<Call>, used: set<string>)
    decreases |cs|
  {
    cs != [] ==>
      if cs[0].Generate? then cs[0].token !in used && Fresh(cs[1..], used + {cs[0].token}) else Fresh(cs[1..], used)
  }

  // The store knows every live token as the record does, and what it has forgotten has expired.
  ghost predicate Matches(tokens: map<string, Entry>, r: Record, now: nat) {
    (forall token :: token in tokens ==>
       token in r.born && tokens[token].createdAt == r.born[token] && (tokens[token].used <==> token in r.spent)) &&
    (forall token :: token in r.born && token !in tokens ==> now > r.born[token] + QR_TOKEN_TTL_MS) &&
    r.spent <= r.born.Keys
  }

  lemma MatchesStep(tokens: map<string, Entry>, r: Record, now: nat, c: Call)
    requires Matches(tokens, r, now) && now <= c.at && (c.Generate? ==> c.token !in r.born)
    ensures Matches(Next(tokens, c), Remember(r, c), c.at)
    ensures c.Validate? ==> (Accepts(tokens, c.token, c.at) <==> ShouldAccept(r, c.token, c.at))
  {
  }

  /** Clean-ups anywhere, the store accepts exactly what the record says it should. */
  lemma {:induction false} VerdictsAreExpected(tokens: map<string, Entry>, r: Record, cs: seq<Call>, now: nat)
    requires Matches(tokens, r, now) && Monotone(cs, now) && Fresh(cs, r.born.Keys)
    ensures Verdicts(tokens, cs) == Expected(r, cs)
    decreases |cs|
  {
    if cs != [] {
      MatchesStep(tokens, r, now, cs[0]);
      if cs[0].Generate? {
        assert Remember(r, cs[0]).born.Keys == r.born.Keys + {cs[0].token};
      }
      VerdictsAreExpected(Next(tokens, cs[0]), Remember(r, cs[0]), cs[1..], cs[0].at);
    }
  }

  lemma {:induction false} SpentIsNeverAccepted(r: Record, cs: seq<Call>, j: nat)
    requires j < |cs| && cs[j].Validate? && cs[j].token in r.spent
    ensures !Expected(r, cs)[j]
    decreases |cs|
  {
    if j > 0 {
      SpentIsNeverAccepted(Remember(r, cs[0]), cs[1..], j - 1);
    }
  }

  lemma {:induction false} AcceptedAtMostOnce(r: Record, cs: seq<Call>, i: nat, j: nat)
    requires i < j < |cs| && cs[i].Validate? && cs[j].Validate? && cs[i].token == cs[j].token && Expected(r, cs)[i]
    ensures !Expected(r, cs)[j]
    decreases |cs|
  {
    if i == 0 {
      SpentIsNeverAccepted(Remember(r, cs[0]), cs[1..], j - 1);
    } else {
      AcceptedAtMostOnce(Remember(r, cs[0]), cs[1..], i - 1, j - 1);
    }
  }

  lemma {:induction false} AcceptedInTime(r: Record, cs: seq<Call>, j: nat)
    requires j < |cs| && cs[j].Validate? && Expected(r, cs)[j]
    ensures (cs[j].token in r.born && cs[j].at <= r.born[cs[j].token] + QR_TOKEN_TTL_MS) ||
            exists i ::
              0 <= i < j && cs[i].Generate? && cs[i].token == cs[j].token && cs[j].at <= cs[i].at + QR_TOKEN_TTL_MS
    decreases |cs|
  {
    if j > 0 {
      var next := Remember(r, cs[0]);
      AcceptedInTime(next, cs[1..], j - 1);
      if !(cs[j].token in next.born && cs[j].at <= next.born[cs[j].token] + QR_TOKEN_TTL_MS) {
        var i :| 0 <= i < j - 1 && cs[1..][i].Generate? && cs[1..][i].token == cs[j].token &&
          cs[j].at <= cs[1..][i].at + QR_TOKEN_TTL_MS;
        assert cs[i + 1] == cs[1..][i];
      }
    }
  }

  const NOTHING := Record(map[], {})

  lemma RunsFromNothing(cs: seq<Call>)
    requires Monotone(cs, 0) && Fresh(cs, {})
    ensures Verdicts(map[], cs) == Expected(NOTHING, cs)
  {
    assert NOTHING.born.Keys == {};
    VerdictsAreExpected(map[], NOTHING, cs, 0);
  }

  lemma {:induction false} OnlyValidationsAccept(r: Record, cs: seq<Call>, j: nat)
    requires j < |cs| && Expected(r, cs)[j]
    ensures cs[j].Validate?
    decreases |cs|
  {
    if j > 0 {
      OnlyValidationsAccept(Remember(r, cs[0]), cs[1..], j - 1);
    }
  }

  /**
   Over every run with fresh tokens and a monotone clock, wherever clean-ups fall: of two validations of one token at
   most one accepts, and an accepted token was generated earlier and has not passed the expiry it was returned with.
   */
  lemma OneTimeUse(cs: seq<Call>, i: nat, j: nat)
    requires Monotone(cs, 0) && Fresh(cs, {}) && i < j < |cs| && Verdicts(map[], cs)[j]
    ensures cs[j].Validate?
    ensures cs[i].Validate? && cs[i].token == cs[j].token ==> !Verdicts(map[], cs)[i]
    ensures exists g ::
              0 <= g < j && cs[g].Generate? && cs[g].token == cs[j].token && cs[j].at <= cs[g].at + QR_TOKEN_TTL_MS
  {
    RunsFromNothing(cs);
    OnlyValidationsAccept(NOTHING, cs, j);
    AcceptedInTime(NOTHING, cs, j);
    if cs[i].Validate? && cs[i].token == cs[j].token && Expected(NOTHING, cs)[i] {
      AcceptedAtMostOnce(NOTHING, cs, i, j);
    }
  }

  // ----- Clean-up is unobservable -----

  ghost function DropCleanups(cs: seq<Call>): seq<Call> {
    if cs == [] then []
    else if cs[0].Cleanup? then DropCleanups(cs[1..])
    else [cs[0]] + DropCleanups(cs[1..])
  }

  // The verdicts on the calls that are not clean-ups.
  ghost function Visible(cs: seq<Call>, v: seq<bool>): seq<bool>
    requires |v| == |cs|
  {
    if cs == [] then []
    else if cs[0].Cleanup? then Visible(cs[1..], v[1..])
    else [v[0]] + Visible(cs[1..], v[1..])
  }

  lemma {:induction false} ReferenceIgnoresCleanups(r: Record, cs: seq<Call>)
    ensures Visible(cs, Expected(r, cs)) == Expected(r, DropCleanups(cs))
    decreases |cs|
  {
    if cs != [] {
      ReferenceIgnoresCleanups(Remember(r, cs[0]), cs[1..]);
      assert Expected(r, cs)[1..] == Expected(Remember(r, cs[0]), cs[1..]);
      if !cs[0].Cleanup? {
        assert ([cs[0]] + DropCleanups(cs[1..]))[1..] == DropCleanups(cs[1..]);
      }
    }
  }

  lemma EarlierStart(cs: seq<Call>, start: nat, earlier: nat)
    requires Monotone(cs, start) && earlier <= start
    ensures Monotone(cs, earlier)
  {
  }

  lemma {:induction false} DroppingKeepsOrder(cs: seq<Call>, start: nat, used: set<string>)
    requires Monotone(cs, start) && Fresh(cs, used)
    ensures Monotone(DropCleanups(cs), start) && Fresh(DropCleanups(cs), used)
    decreases |cs|
  {
    if cs != [] {
      var rest := DropCleanups(cs[1..]);
      DroppingKeepsOrder(cs[1..], cs[0].at, if cs[0].Generate? then used + {cs[0].token} else used);
      if cs[0].Cleanup? {
        EarlierStart(rest, cs[0].at, start);
      } else {
        assert ([cs[0]] + rest)[1..] == rest;
      }
    }
  }

  /** Clean-ups inserted anywhere change no verdict. */
  lemma CleanupUnobservable(cs: seq<Call>)
    requires Monotone(cs, 0) && Fresh(cs, {})
    ensures Visible(cs, Verdicts(map[], cs)) == Verdicts(map[], DropCleanups(cs))
  {
    RunsFromNothing(cs);
    ReferenceIgnoresCleanups(NOTHING, cs);
    DroppingKeepsOrder(cs, 0, {});
    RunsFromNothing(DropCleanups(cs));
  }
}
