/** What the credential generator can produce: everything of the right shape. */
module Generated {
  import opened Wrappers
  import opened Shuffle
  import opened Password

  // ----- Every character of a set is picked by some byte -----

  lemma PickReaches(charset: string, c: char) returns (b: Byte)
    requires c in charset && |charset| <= 256
    ensures Pick(charset, b) == c
  {
    var i :| 0 <= i < |charset| && charset[i] == c;
    SmallRemainder(i, |charset|);
    b := i;
  }

  ghost predicate Within(s: string, charset: string) {
    forall i :: 0 <= i < |s| ==> s[i] in charset
  }

  lemma {:induction false} PicksReach(charset: string, s: string) returns (bytes: seq<Byte>)
    requires Within(s, charset) && 0 < |charset| <= 256
    ensures |bytes| == |s| && forall i :: 0 <= i < |s| ==> Pick(charset, bytes[i]) == s[i]
  {
    if s == [] {
      bytes := [];
    } else {
      var front := s[..|s| - 1];
      var before := PicksReach(charset, front);
      var b := PickReaches(charset, s[|s| - 1]);
      bytes := before + [b];
    }
  }

  lemma LetterIndex(letters: string, first: char, c: char)
    requires |letters| == 26 && forall i :: 0 <= i < 26 ==> letters[i] as int == first as int + i
    requires first as int <= c as int < first as int + 26
    ensures c in letters
  {
    assert letters[c as int - first as int] == c;
  }

  lemma UpperHasAll(c: char)
    requires IsUpper(c)
    ensures c in UPPER
  {
    LetterIndex(UPPER, 'A', c);
  }

  lemma LowerHasAll(c: char)
    requires IsLower(c)
    ensures c in LOWER
  {
    LetterIndex(LOWER, 'a', c);
  }

  lemma DigitsHasAll(c: char)
    requires IsDigit(c)
    ensures c in DIGITS
  {
    assert DIGITS[c as int - '0' as int] == c;
  }

  lemma SpecialHasAll(c: char)
    requires IsSpecial(c)
    ensures c in SPECIAL
  {
    assert SPECIAL[0] == '!' && SPECIAL[1] == '@' && SPECIAL[2] == '#' && SPECIAL[3] == '$';
    assert SPECIAL[4] == '%' && SPECIAL[5] == '^' && SPECIAL[6] == '&' && SPECIAL[7] == '*';
  }

  lemma InEither(a: string, b: string, c: char)
    requires c in a || c in b
    ensures c in a + b
  {
    if c in a {
      var i :| 0 <= i < |a| && a[i] == c;
      assert (a + b)[i] == c;
    } else {
      var i :| 0 <= i < |b| && b[i] == c;
      assert (a + b)[|a| + i] == c;
    }
  }

  lemma AllPasswordCharsAreThere(c: char)
    requires IsPasswordChar(c)
    ensures c in ALL_PASSWORD_CHARS
  {
    if IsUpper(c) {
      UpperHasAll(c);
    } else if IsLower(c) {
      LowerHasAll(c);
    } else if IsDigit(c) {
      DigitsHasAll(c);
    } else {
      SpecialHasAll(c);
    }
    if IsUpper(c) || IsLower(c) {
      InEither(UPPER, LOWER, c);
    }
    if !IsSpecial(c) {
      InEither(UPPER + LOWER, DIGITS, c);
    }
    InEither(UPPER + LOWER + DIGITS, SPECIAL, c);
  }

  lemma AllUsernameCharsAreThere(c: char)
    requires IsUsernameChar(c)
    ensures c in ALPHANUMERIC_LOWER
  {
    if IsLower(c) {
      LowerHasAll(c);
    } else {
      DigitsHasAll(c);
    }
    InEither(LOWER, DIGITS, c);
  }

  // ----- Streams that hold given bytes -----

  ghost predicate Holds(stream: nat -> Byte, start: nat, bytes: seq<Byte>) {
    forall i :: 0 <= i < |bytes| ==> stream(start + i) == bytes[i]
  }

  ghost function StreamOf(start: nat, bytes: seq<Byte>): nat -> Byte {
    (i: nat) => if start <= i < start + |bytes| then bytes[i - start] else 0
  }

  lemma StreamHolds(start: nat, bytes: seq<Byte>)
    ensures Holds(StreamOf(start, bytes), start, bytes)
  {
  }

  lemma HoldsParts(stream: nat -> Byte, start: nat, a: seq<Byte>, b: seq<Byte>)
    requires Holds(stream, start, a + b)
    ensures Holds(stream, start, a) && Holds(stream, start + |a|, b)
  {
    forall i | 0 <= i < |a|
      ensures stream(start + i) == a[i]
    {
      assert (a + b)[i] == a[i];
    }
    forall i | 0 <= i < |b|
      ensures stream(start + |a| + i) == b[i]
    {
      assert (a + b)[|a| + i] == b[i];
    }
  }

  lemma HeldBytes(stream: nat -> Byte, start: nat, bytes: seq<Byte>)
    requires Holds(stream, start, bytes)
    ensures Bytes(stream, start, |bytes|) == bytes
  {
  }

  // ----- Passwords -----

  lemma {:induction false} Listed(m: multiset<char>) returns (s: string)
    ensures multiset(s) == m
    decreases m
  {
    if m == multiset{} {
      s := [];
    } else {
      var c :| c in m;
      var rest := Listed(m - multiset{c});
      s := rest + [c];
      assert (m - multiset{c}) + multiset{c} == m;
    }
  }

  ghost predicate OnePerClass(head: string) {
    |head| == 4 && IsUpper(head[0]) && IsLower(head[1]) && IsDigit(head[2]) && IsSpecial(head[3])
  }

  lemma FourOfThem(q: string) returns (head: string)
    requires HasEveryClass(q)
    ensures OnePerClass(head) && multiset(head) <= multiset(q)
  {
    var u :| 0 <= u < |q| && IsUpper(q[u]);
    var l :| 0 <= l < |q| && IsLower(q[l]);
    var d :| 0 <= d < |q| && IsDigit(q[d]);
    var x :| 0 <= x < |q| && IsSpecial(q[x]);
    head := [q[u], q[l], q[d], q[x]];
    assert q[u] in multiset(q) && q[l] in multiset(q) && q[d] in multiset(q) && q[x] in multiset(q);
    assert multiset(head) == multiset{q[u], q[l], q[d], q[x]};
  }

  lemma SameLength(a: string, b: string)
    requires multiset(a) == multiset(b)
    ensures |a| == |b|
  {
    assert |multiset(a)| == |a| && |multiset(b)| == |b|;
  }

  // The same characters with one of each class in front.
  lemma ClassesFirst(q: string) returns (head: string, rest: string)
    requires HasEveryClass(q) && OnlyPasswordChars(q)
    ensures OnePerClass(head) && multiset(head + rest) == multiset(q) && |head + rest| == |q|
    ensures OnlyPasswordChars(rest)
  {
    head := FourOfThem(q);
    rest := Listed(multiset(q) - multiset(head));
    assert multiset(head) + (multiset(q) - multiset(head)) == multiset(q);
    SameLength(head + rest, q);
    forall i | 0 <= i < |rest|
      ensures IsPasswordChar(rest[i])
    {
      assert rest[i] in multiset(rest);
      assert rest[i] in multiset(q);
    }
  }

  lemma HeadIsPicked(head: string) returns (bytes: seq<Byte>)
    requires OnePerClass(head)
    ensures |bytes| == 4 && Pick(UPPER, bytes[0]) == head[0] && Pick(LOWER, bytes[1]) == head[1]
    ensures Pick(DIGITS, bytes[2]) == head[2] && Pick(SPECIAL, bytes[3]) == head[3]
  {
    UpperHasAll(head[0]);
    LowerHasAll(head[1]);
    DigitsHasAll(head[2]);
    SpecialHasAll(head[3]);
    var u := PickReaches(UPPER, head[0]);
    var l := PickReaches(LOWER, head[1]);
    var d := PickReaches(DIGITS, head[2]);
    var x := PickReaches(SPECIAL, head[3]);
    bytes := [u, l, d, x];
  }

  lemma RestIsPicked(rest: string) returns (bytes: seq<Byte>)
    requires OnlyPasswordChars(rest)
    ensures |bytes| == |rest| && forall i :: 0 <= i < |rest| ==> Pick(ALL_PASSWORD_CHARS, bytes[i]) == rest[i]
  {
    forall i | 0 <= i < |rest|
      ensures rest[i] in ALL_PASSWORD_CHARS
    {
      AllPasswordCharsAreThere(rest[i]);
    }
    bytes := PicksReach(ALL_PASSWORD_CHARS, rest);
  }

  lemma FilledFrom(head: string, rest: string, charset: string, stream: nat -> Byte, start: nat, bytes: seq<Byte>)
    requires |charset| > 0 && |bytes| == |rest| && Holds(stream, start, bytes)
    requires forall i :: 0 <= i < |rest| ==> Pick(charset, bytes[i]) == rest[i]
    ensures Filled(head, charset, stream, start, |head| + |rest|) == head + rest
  {
    var filled := Filled(head, charset, stream, start, |head| + |rest|);
    forall i | 0 <= i < |rest|
      ensures filled[|head| + i] == rest[i]
    {
      assert stream(start + i) == bytes[i];
    }
  }

  lemma HeadFrom(head: string, stream: nat -> Byte, start: nat, bytes: seq<Byte>)
    requires |head| == 4 == |bytes| && Holds(stream, start, bytes)
    requires Pick(UPPER, bytes[0]) == head[0] && Pick(LOWER, bytes[1]) == head[1]
    requires Pick(DIGITS, bytes[2]) == head[2] && Pick(SPECIAL, bytes[3]) == head[3]
    ensures Head(stream, start) == head
  {
    assert stream(start + 0) == bytes[0] && stream(start + 1) == bytes[1];
    assert stream(start + 2) == bytes[2] && stream(start + 3) == bytes[3];
  }

  lemma ShuffledFrom(picks: string, stream: nat -> Byte, at: nat, shuffling: seq<Byte>, q: string)
    requires |shuffling| == |picks| && Holds(stream, at, shuffling)
    requires Shuffled(picks, Choices(shuffling), |picks|) == q
    ensures ShuffledBy(picks, stream, at) == q
  {
    HeldBytes(stream, at, shuffling);
  }

  lemma FinishedFrom(head: string, charset: string, stream: nat -> Byte, start: nat, len: nat, at: nat,
      picks: string, shuffling: seq<Byte>, q: string)
    requires |charset| > 0 && Filled(head, charset, stream, start, len) == picks && at == start + |picks| - |head|
    requires |shuffling| == |picks| && Holds(stream, at, shuffling)
    requires Shuffled(picks, Choices(shuffling), |picks|) == q
    ensures Finished(head, charset, stream, start, len) == q
  {
    ShuffledFrom(picks, stream, at, shuffling, q);
  }

  // The generator's bytes, in the order it draws them: the head, the rest, the shuffle.
  lemma StrongPasswordFrom(stream: nat -> Byte, start: nat, head: string, rest: string, first: seq<Byte>,
      second: seq<Byte>, shuffling: seq<Byte>, len: nat, q: string)
    requires |head| == 4 == |first| && Holds(stream, start, first) && len == |head| + |rest|
    requires Pick(UPPER, first[0]) == head[0] && Pick(LOWER, first[1]) == head[1]
    requires Pick(DIGITS, first[2]) == head[2] && Pick(SPECIAL, first[3]) == head[3]
    requires |second| == |rest| && Holds(stream, start + 4, second)
    requires forall i :: 0 <= i < |rest| ==> Pick(ALL_PASSWORD_CHARS, second[i]) == rest[i]
    requires |shuffling| == |head + rest| && Holds(stream, start + 4 + |rest|, shuffling)
    requires Shuffled(head + rest, Choices(shuffling), |head + rest|) == q
    ensures StrongPassword(stream, start, len) == q
  {
    HeadFrom(head, stream, start, first);
    FilledFrom(head, rest, ALL_PASSWORD_CHARS, stream, start + 4, second);
    FinishedFrom(head, ALL_PASSWORD_CHARS, stream, start + 4, len, start + 4 + |rest|, head + rest, shuffling, q);
  }

  ghost predicate Generates(bytes: seq<Byte>, q: string) {
    forall stream: nat -> Byte, start: nat :: Holds(stream, start, bytes) ==> StrongPassword(stream, start, |q|) == q
  }

  lemma PasswordParts(stream: nat -> Byte, start: nat, first: seq<Byte>, second: seq<Byte>, shuffling: seq<Byte>)
    requires |first| == 4 && Holds(stream, start, first + (second + shuffling))
    ensures Holds(stream, start, first) && Holds(stream, start + 4, second)
    ensures Holds(stream, start + 4 + |second|, shuffling)
  {
    HoldsParts(stream, start, first, second + shuffling);
    HoldsParts(stream, start + 4, second, shuffling);
  }

  lemma PartsGenerate(head: string, rest: string, first: seq<Byte>, second: seq<Byte>, shuffling: seq<Byte>, q: string)
    requires |head| == 4 == |first| && |q| == |head| + |rest|
    requires Pick(UPPER, first[0]) == head[0] && Pick(LOWER, first[1]) == head[1]
    requires Pick(DIGITS, first[2]) == head[2] && Pick(SPECIAL, first[3]) == head[3]
    requires |second| == |rest|
    requires forall i :: 0 <= i < |rest| ==> Pick(ALL_PASSWORD_CHARS, second[i]) == rest[i]
    requires |shuffling| == |head + rest| && Shuffled(head + rest, Choices(shuffling), |head + rest|) == q
    ensures Generates(first + (second + shuffling), q)
  {
    var bytes := first + (second + shuffling);
    forall stream: nat -> Byte, start: nat | Holds(stream, start, bytes)
      ensures StrongPassword(stream, start, |q|) == q
    {
      PasswordParts(stream, start, first, second, shuffling);
      StrongPasswordFrom(stream, start, head, rest, first, second, shuffling, |q|, q);
    }
  }

  // Bytes after which, from wherever they stand in the stream, the generator produces `q`.
  lemma PasswordBytes(q: string) returns (bytes: seq<Byte>)
    requires 4 <= |q| <= 256 && OnlyPasswordChars(q) && HasEveryClass(q)
    ensures Generates(bytes, q)
  {
    var head, rest := ClassesFirst(q);
    var first := HeadIsPicked(head);
    var second := RestIsPicked(rest);
    var js := RearrangementsAreReached(head + rest, q);
    var shuffling := ChoiceFromBytes(js);
    PartsGenerate(head, rest, first, second, shuffling, q);
    bytes := first + (second + shuffling);
  }

  lemma GeneratedAt(bytes: seq<Byte>, q: string, stream: nat -> Byte, start: nat, len: nat)
    requires Generates(bytes, q) && Holds(stream, start, bytes) && len == |q|
    ensures StrongPassword(stream, start, len) == q
  {
  }

  /** Every string of 4 to 256 password characters with all four classes is generated from some stream. */
  lemma EveryStrongPasswordIsGenerated(q: string, start: nat) returns (stream: nat -> Byte)
    requires 4 <= |q| <= 256 && OnlyPasswordChars(q) && HasEveryClass(q)
    ensures StrongPassword(stream, start, |q|) == q
  {
    var bytes := PasswordBytes(q);
    stream := StreamOf(start, bytes);
    StreamHolds(start, bytes);
  }

  // ----- Credentials -----

  lemma LengthBytes(n: Byte) returns (bytes: seq<Byte>)
    ensures |bytes| == 4 && LittleEndian(bytes) == n
  {
    bytes := [n, 0, 0, 0];
    FourBytes(bytes);
  }

  lemma LengthSampled(stream: nat -> Byte, start: nat, bytes: seq<Byte>, min: nat, max: nat, n: nat)
    requires min <= n < max && |bytes| == 4 && LittleEndian(bytes) == n - min && Holds(stream, start, bytes)
    ensures Sample(stream, start, min, max) == n
  {
    HeldBytes(stream, start, bytes);
    SmallRemainder(n - min, max - min);
  }

  lemma UsernameFrom(stream: nat -> Byte, start: nat, u: string, bytes: seq<Byte>)
    requires |bytes| == |u| && Holds(stream, start, bytes)
    requires forall i :: 0 <= i < |u| ==> Pick(ALPHANUMERIC_LOWER, bytes[i]) == u[i]
    ensures Picked(ALPHANUMERIC_LOWER, stream, start, |u|) == u
  {
    forall i | 0 <= i < |u|
      ensures Picked(ALPHANUMERIC_LOWER, stream, start, |u|)[i] == u[i]
    {
      assert stream(start + i) == bytes[i];
    }
  }

  lemma UsernameBytes(u: string) returns (bytes: seq<Byte>)
    requires OnlyUsernameChars(u)
    ensures |bytes| == |u| && forall i :: 0 <= i < |u| ==> Pick(ALPHANUMERIC_LOWER, bytes[i]) == u[i]
  {
    forall i | 0 <= i < |u|
      ensures u[i] in ALPHANUMERIC_LOWER
    {
      AllUsernameCharsAreThere(u[i]);
    }
    bytes := PicksReach(ALPHANUMERIC_LOWER, u);
  }

  lemma LengthsDrawn(stream: nat -> Byte, start: nat, first: seq<Byte>, second: seq<Byte>, n: nat, m: nat)
    requires 6 <= n <= 8 && 12 <= m <= 17 && |first| == 4 == |second|
    requires LittleEndian(first) == n - 6 && LittleEndian(second) == m - 12
    requires Holds(stream, start, first) && Holds(stream, start + 4, second)
    ensures UsernameLength(stream, start) == n && PasswordLength(stream, start) == m
    ensures start + 8 + n == PasswordStart(stream, start)
  {
    LengthSampled(stream, start, first, 6, 9, n);
    LengthSampled(stream, start + 4, second, 12, 18, m);
  }

  lemma CredentialParts(stream: nat -> Byte, start: nat, a: seq<Byte>, b: seq<Byte>, c: seq<Byte>, d: seq<Byte>)
    requires |a| == 4 == |b| && Holds(stream, start, a + (b + (c + d)))
    ensures Holds(stream, start, a) && Holds(stream, start + 4, b)
    ensures Holds(stream, start + 8, c) && Holds(stream, start + 8 + |c|, d)
  {
    HoldsParts(stream, start, a, b + (c + d));
    HoldsParts(stream, start + 4, b, c + d);
    HoldsParts(stream, start + 8, c, d);
  }

  lemma PasswordOfIs(stream: nat -> Byte, start: nat, at: nat, bytes: seq<Byte>, p: string)
    requires at == PasswordStart(stream, start) && |p| == PasswordLength(stream, start)
    requires Generates(bytes, p) && Holds(stream, at, bytes)
    ensures PasswordOf(stream, start) == p
  {
    GeneratedAt(bytes, p, stream, at, |p|);
  }

  lemma UsernameOfIs(stream: nat -> Byte, start: nat, at: nat, bytes: seq<Byte>, u: string)
    requires at == start + 8 && |u| == UsernameLength(stream, start)
    requires |bytes| == |u| && Holds(stream, at, bytes)
    requires forall i :: 0 <= i < |u| ==> Pick(ALPHANUMERIC_LOWER, bytes[i]) == u[i]
    ensures UsernameOf(stream, start) == u
  {
    UsernameFrom(stream, at, u, bytes);
  }

  /**
   Every user name of 6 to 8 lower-case letters and digits is generated together with every password of 12 to 17
   password characters with all four classes.
   */
  lemma EveryPairOfCredentialsIsGenerated(u: string, p: string, start: nat) returns (stream: nat -> Byte)
    requires 6 <= |u| <= 8 && OnlyUsernameChars(u)
    requires 12 <= |p| <= 17 && OnlyPasswordChars(p) && HasEveryClass(p)
    ensures UsernameOf(stream, start) == u && PasswordOf(stream, start) == p
  {
    var first := LengthBytes(|u| - 6);
    var second := LengthBytes(|p| - 12);
    var third := UsernameBytes(u);
    var fourth := PasswordBytes(p);
    stream := StreamOf(start, first + (second + (third + fourth)));
    StreamHolds(start, first + (second + (third + fourth)));
    CredentialParts(stream, start, first, second, third, fourth);
    LengthsDrawn(stream, start, first, second, |u|, |p|);
    UsernameOfIs(stream, start, start + 8, third, u);
    PasswordOfIs(stream, start, start + 8 + |u|, fourth, p);
  }
}
