/**
 The credential generator.

 Its random bytes are an arbitrary infinite stream, read in order; every claim below holds for every stream.
 */
module Password {
  import opened Wrappers
  import opened Shuffle
  import opened Validation

  const LOWER := "abcdefghijklmnopqrstuvwxyz"
  const UPPER := "ABCDEFGHIJKLMNOPQRSTUVWXYZ"
  const DIGITS := "0123456789"
  const SPECIAL := "!@#$%^&*"
  const ALPHANUMERIC_LOWER := LOWER + DIGITS
  const ALL_PASSWORD_CHARS := UPPER + LOWER + DIGITS + SPECIAL

  predicate IsUpper(c: char) {
    'A' <= c <= 'Z'
  }

  predicate IsLower(c: char) {
    'a' <= c <= 'z'
  }

  predicate IsDigit(c: char) {
    '0' <= c <= '9'
  }

  predicate IsSpecial(c: char) {
    c == '!' || c == '@' || c == '#' || c == '$' || c == '%' || c == '^' || c == '&' || c == '*'
  }

  predicate IsPasswordChar(c: char) {
    IsUpper(c) || IsLower(c) || IsDigit(c) || IsSpecial(c)
  }

  ghost function Bytes(stream: nat -> Byte, start: nat, n: nat): (buf: seq<Byte>)
    ensures |buf| == n
  {
    seq(n, i requires 0 <= i => stream(start + i))
  }

  class Entropy {
    const stream: nat -> Byte
    var pos: nat

    constructor (stream: nat -> Byte)
      ensures this.stream == stream && pos == 0
    {
      this.stream := stream;
      pos := 0;
    }

    method Fill(n: nat) returns (buf: seq<Byte>)
      modifies this`pos
      ensures pos == old(pos) + n
      ensures buf == Bytes(stream, old(pos), n)
    {
      var f, start := stream, pos;
      buf := seq(n, i requires 0 <= i => f(start + i));
      pos := pos + n;
    }
  }

  // A little-endian number.
  ghost function LittleEndian(b: seq<Byte>): nat {
    if b == [] then 0 else (b[0] as int) + 0x100 * LittleEndian(b[1..])
  }

  lemma FourBytes(b: seq<Byte>)
    requires |b| == 4
    ensures LittleEndian(b) ==
            (b[0] as int) + 0x100 * (b[1] as int) + 0x1_0000 * (b[2] as int) + 0x100_0000 * (b[3] as int)
  {
    assert b[1..][1..] == b[2..] && b[2..][1..] == b[3..] && b[3..][1..] == [];
    assert LittleEndian(b[3..]) == b[3];
    assert LittleEndian(b[2..]) == (b[2] as int) + 0x100 * (b[3] as int);
    assert LittleEndian(b[1..]) == (b[1] as int) + 0x100 * LittleEndian(b[2..]);
  }

  // An integer in `[min, max)`, from four bytes.
  ghost function Sample(stream: nat -> Byte, start: nat, min: nat, max: nat): (n: nat)
    requires min < max
    ensures min <= n < max
  {
    min + LittleEndian(Bytes(stream, start, 4)) % (max - min)
  }

  method RandomRange(entropy: Entropy, min: nat, max: nat) returns (n: nat)
    requires min < max
    modifies entropy`pos
    ensures n == Sample(entropy.stream, old(entropy.pos), min, max) && entropy.pos == old(entropy.pos) + 4
  {
    var range := max - min;
    var b := entropy.Fill(4);
    FourBytes(b);
    n := min + ((b[0] as int) + 0x100 * (b[1] as int) + 0x1_0000 * (b[2] as int) + 0x100_0000 * (b[3] as int)) % range;
  }

  function Pick(charset: string, b: Byte): char
    requires |charset| > 0
  {
    charset[b % |charset|]
  }

  method RandomFrom(entropy: Entropy, charset: string) returns (c: char)
    requires |charset| > 0
    modifies entropy`pos
    ensures c == Pick(charset, entropy.stream(old(entropy.pos))) && entropy.pos == old(entropy.pos) + 1
  {
    var buf := entropy.Fill(1);
    c := charset[buf[0] % |charset|];
  }

  // Each character is the pick of its own byte.
  ghost function Picked(charset: string, stream: nat -> Byte, start: nat, len: nat): (s: string)
    requires |charset| > 0
    ensures |s| == len
  {
    seq(len, i requires 0 <= i => Pick(charset, stream(start + i)))
  }

  method RandomString(entropy: Entropy, len: nat, charset: string) returns (s: string)
    requires |charset| > 0
    modifies entropy`pos
    ensures s == Picked(charset, entropy.stream, old(entropy.pos), len)
    ensures entropy.pos == old(entropy.pos) + len
  {
    var buf := entropy.Fill(len);
    s := seq(len, i requires 0 <= i < len => charset[buf[i] % |charset|]);
    ghost var picked := Picked(charset, entropy.stream, old(entropy.pos), len);
    assert forall i :: 0 <= i < len ==> s[i] == Pick(charset, buf[i]) == picked[i];
  }

  // ----- What a strong password is -----

  // `head`, filled up to `len` characters from `charset`.
  ghost function Filled(head: string, charset: string, stream: nat -> Byte, start: nat, len: nat): (s: string)
    requires |charset| > 0
    ensures |s| == if len < |head| then |head| else len
  {
    head + seq(if len < |head| then 0 else len - |head|, i requires 0 <= i => Pick(charset, stream(start + i)))
  }

  ghost function ShuffledBy(s: string, stream: nat -> Byte, start: nat): string {
    Shuffled(s, Choices(Bytes(stream, start, |s|)), |s|)
  }

  // `head` filled up and then shuffled.
  ghost function Finished(head: string, charset: string, stream: nat -> Byte, start: nat, len: nat): string
    requires |charset| > 0
  {
    var picks := Filled(head, charset, stream, start, len);
    ShuffledBy(picks, stream, start + |picks| - |head|)
  }

  // One of each class, then any.
  ghost function Head(stream: nat -> Byte, start: nat): (s: string)
    ensures |s| == 4
  {
    [Pick(UPPER, stream(start)), Pick(LOWER, stream(start + 1)), Pick(DIGITS, stream(start + 2)),
      Pick(SPECIAL, stream(start + 3))]
  }

  ghost function StrongPassword(stream: nat -> Byte, start: nat, len: nat): string {
    Finished(Head(stream, start), ALL_PASSWORD_CHARS, stream, start + 4, len)
  }

  ghost predicate HasOne(s: string, p: char -> bool) {
    exists i :: 0 <= i < |s| && p(s[i])
  }

  ghost predicate HasEveryClass(s: string) {
    HasOne(s, IsUpper) && HasOne(s, IsLower) && HasOne(s, IsDigit) && HasOne(s, IsSpecial)
  }

  ghost predicate OnlyPasswordChars(s: string) {
    forall i :: 0 <= i < |s| ==> IsPasswordChar(s[i])
  }

  // Each character set holds its class and nothing else.
  ghost predicate AllOf(charset: string, p: char -> bool) {
    |charset| > 0 && forall i :: 0 <= i < |charset| ==> p(charset[i])
  }

  lemma UpperIsUpper()
    ensures AllOf(UPPER, IsUpper)
  {
  }

  lemma LowerIsLower()
    ensures AllOf(LOWER, IsLower)
  {
  }

  lemma DigitsAreDigits()
    ensures AllOf(DIGITS, IsDigit)
  {
  }

  lemma SpecialIsSpecial()
    ensures AllOf(SPECIAL, IsSpecial)
  {
  }

  lemma PickIsOfItsSet(charset: string, p: char -> bool, b: Byte)
    requires AllOf(charset, p)
    ensures p(Pick(charset, b))
  {
  }

  lemma JoinedSets(a: string, p: char -> bool, b: string, q: char -> bool, r: char -> bool)
    requires AllOf(a, p) && AllOf(b, q) && forall c :: p(c) || q(c) ==> r(c)
    ensures AllOf(a + b, r)
  {
  }

  lemma AllCharsArePasswordChars()
    ensures AllOf(ALL_PASSWORD_CHARS, IsPasswordChar)
  {
    UpperIsUpper();
    LowerIsLower();
    DigitsAreDigits();
    SpecialIsSpecial();
    JoinedSets(UPPER, IsUpper, LOWER, IsLower, IsPasswordChar);
    JoinedSets(UPPER + LOWER, IsPasswordChar, DIGITS, IsDigit, IsPasswordChar);
    JoinedSets(UPPER + LOWER + DIGITS, IsPasswordChar, SPECIAL, IsSpecial, IsPasswordChar);
  }

  lemma FilledIsClean(head: string, charset: string, stream: nat -> Byte, start: nat, len: nat)
    requires AllOf(charset, IsPasswordChar) && OnlyPasswordChars(head)
    ensures OnlyPasswordChars(Filled(head, charset, stream, start, len))
  {
    var picks := Filled(head, charset, stream, start, len);
    forall i | 0 <= i < |picks|
      ensures IsPasswordChar(picks[i])
    {
      if i >= |head| {
        PickIsOfItsSet(charset, IsPasswordChar, stream(start + (i - |head|)));
      }
    }
  }

  lemma ShuffledByPermutes(s: string, stream: nat -> Byte, start: nat)
    ensures |ShuffledBy(s, stream, start)| == |s| && multiset(ShuffledBy(s, stream, start)) == multiset(s)
  {
    ShufflePermutes(s, Choices(Bytes(stream, start, |s|)), |s|);
  }

  lemma StillThere(s: string, t: string, k: nat, p: char -> bool)
    requires multiset(s) == multiset(t) && k < |s| && p(s[k])
    ensures HasOne(t, p)
  {
    assert s[k] in multiset(s);
    assert s[k] in multiset(t);
  }

  lemma CleanIsKept(s: string, t: string)
    requires multiset(s) == multiset(t) && OnlyPasswordChars(s)
    ensures OnlyPasswordChars(t)
  {
    forall i | 0 <= i < |t|
      ensures IsPasswordChar(t[i])
    {
      assert t[i] in multiset(t);
      assert t[i] in multiset(s);
    }
  }

  lemma SurvivesShuffle(s: string, t: string)
    requires |s| >= 4 && multiset(s) == multiset(t)
    requires IsUpper(s[0]) && IsLower(s[1]) && IsDigit(s[2]) && IsSpecial(s[3])
    ensures HasEveryClass(t)
  {
    StillThere(s, t, 0, IsUpper);
    StillThere(s, t, 1, IsLower);
    StillThere(s, t, 2, IsDigit);
    StillThere(s, t, 3, IsSpecial);
  }

  lemma SurvivesShuffling(s: string, stream: nat -> Byte, start: nat)
    requires |s| >= 4 && OnlyPasswordChars(s)
    requires IsUpper(s[0]) && IsLower(s[1]) && IsDigit(s[2]) && IsSpecial(s[3])
    ensures var p := ShuffledBy(s, stream, start);
            |p| == |s| && OnlyPasswordChars(p) && HasEveryClass(p)
  {
    ShuffledByPermutes(s, stream, start);
    SurvivesShuffle(s, ShuffledBy(s, stream, start));
    CleanIsKept(s, ShuffledBy(s, stream, start));
  }

  // The classes at the head survive the filling and the shuffle.
  lemma ClassesSurvive(head: string, charset: string, stream: nat -> Byte, start: nat, len: nat)
    requires |head| == 4 && AllOf(charset, IsPasswordChar)
    requires IsUpper(head[0]) && IsLower(head[1]) && IsDigit(head[2]) && IsSpecial(head[3])
    ensures var p := Finished(head, charset, stream, start, len);
            |p| == (if len < 4 then 4 else len) && OnlyPasswordChars(p) && HasEveryClass(p)
  {
    var picks := Filled(head, charset, stream, start, len);
    var p := Finished(head, charset, stream, start, len);
    FilledIsClean(head, charset, stream, start, len);
    assert picks[0] == head[0] && picks[1] == head[1] && picks[2] == head[2] && picks[3] == head[3];
    SurvivesShuffling(picks, stream, start + |picks| - |head|);
  }

  lemma HeadHasEachClass(stream: nat -> Byte, start: nat)
    ensures var head := Head(stream, start);
            IsUpper(head[0]) && IsLower(head[1]) && IsDigit(head[2]) && IsSpecial(head[3])
  {
    UpperIsUpper();
    LowerIsLower();
    DigitsAreDigits();
    SpecialIsSpecial();
    PickIsOfItsSet(UPPER, IsUpper, stream(start));
    PickIsOfItsSet(LOWER, IsLower, stream(start + 1));
    PickIsOfItsSet(DIGITS, IsDigit, stream(start + 2));
    PickIsOfItsSet(SPECIAL, IsSpecial, stream(start + 3));
  }

  /**
   For every stream the password has the length asked for, at least 4, and keeps all four classes through the shuffle.
   */
  lemma StrongPasswordIsStrong(stream: nat -> Byte, start: nat, len: nat)
    ensures var p := StrongPassword(stream, start, len);
            |p| == (if len < 4 then 4 else len) && HasEveryClass(p) && OnlyPasswordChars(p)
  {
    HeadHasEachClass(stream, start);
    AllCharsArePasswordChars();
    ClassesSurvive(Head(stream, start), ALL_PASSWORD_CHARS, stream, start + 4, len);
  }

  lemma WeakPasswordsArePlain(weak: string, k: nat)
    requires weak in WEAK_PASSWORDS && k < |weak|
    ensures Alphanumeric(weak[k])
  {
  }

  lemma SpecialMeansNotWeak(p: string, k: nat)
    requires k < |p| && IsSpecial(p[k])
    ensures LowerAll(p) !in WEAK_PASSWORDS
  {
    var weak := LowerAll(p);
    assert !Alphanumeric(weak[k]);
    if weak in WEAK_PASSWORDS {
      WeakPasswordsArePlain(weak, k);
      assert false;
    }
  }

  // Of passwords with a special character, validation judges the length alone.
  lemma StrongStringsValidate(p: string)
    requires OnlyPasswordChars(p) && HasOne(p, IsSpecial)
    ensures ValidatePassword(p).Ok? <==> 8 <= |p| <= 128
  {
    AsciiLength(p);
    var k :| 0 <= k < |p| && IsSpecial(p[k]);
    SpecialMeansNotWeak(p, k);
  }

  /**
   Whatever its bytes, a generated password passes validation if and only if it was asked for with 8 to 128
   characters.
   */
  lemma GeneratedPasswordValidates(stream: nat -> Byte, start: nat, len: nat)
    ensures ValidatePassword(StrongPassword(stream, start, len)).Ok? <==> 8 <= len <= 128
  {
    StrongPasswordIsStrong(stream, start, len);
    StrongStringsValidate(StrongPassword(stream, start, len));
  }

  // ----- The generators -----

  method OneOfEachClass(entropy: Entropy) returns (head: string)
    modifies entropy`pos
    ensures head == Head(entropy.stream, old(entropy.pos)) && entropy.pos == old(entropy.pos) + 4
  {
    var upper := RandomFrom(entropy, UPPER);
    var lower := RandomFrom(entropy, LOWER);
    var digit := RandomFrom(entropy, DIGITS);
    var special := RandomFrom(entropy, SPECIAL);
    head := [upper, lower, digit, special];
  }

  // Filling one position further is one more pick.
  lemma FilledNext(head: string, charset: string, stream: nat -> Byte, start: nat, n: nat)
    requires |charset| > 0 && n >= |head|
    ensures Filled(head, charset, stream, start, n + 1)
         == Filled(head, charset, stream, start, n) + [Pick(charset, stream(start + (n - |head|)))]
  {
  }

  method FillUp(entropy: Entropy, head: string, charset: string, len: nat) returns (chars: string)
    requires |charset| > 0
    modifies entropy`pos
    ensures chars == Filled(head, charset, entropy.stream, old(entropy.pos), len)
    ensures entropy.pos == old(entropy.pos) + |chars| - |head|
  {
    ghost var stream, start := entropy.stream, entropy.pos;
    chars := head;
    var n := |head|;
    while n < len
      invariant n >= |head| && (n <= len || n == |head|)
      invariant entropy.pos == start + (n - |head|)
      invariant chars == Filled(head, charset, stream, start, n)
    {
      var c := RandomFrom(entropy, charset);
      FilledNext(head, charset, stream, start, n);
      chars := chars + [c];
      n := n + 1;
    }
  }

  method ShuffleString(entropy: Entropy, chars: string) returns (shuffled: string)
    modifies entropy`pos
    ensures shuffled == ShuffledBy(chars, entropy.stream, old(entropy.pos))
  {
    var a := new char[|chars|](i requires 0 <= i < |chars| => chars[i]);
    assert a[..] == chars;
    var bytes := entropy.Fill(a.Length);
    ShuffleInPlace(a, bytes);
    shuffled := a[..];
  }

  method FillAndShuffle(entropy: Entropy, head: string, charset: string, len: nat) returns (password: string)
    requires |charset| > 0
    modifies entropy`pos
    ensures password == Finished(head, charset, entropy.stream, old(entropy.pos), len)
  {
    var chars := FillUp(entropy, head, charset, len);
    password := ShuffleString(entropy, chars);
  }

  method GenerateStrongPassword(entropy: Entropy, len: nat) returns (password: string)
    modifies entropy`pos
    ensures password == StrongPassword(entropy.stream, old(entropy.pos), len)
  {
    var head := OneOfEachClass(entropy);
    password := FillAndShuffle(entropy, head, ALL_PASSWORD_CHARS, len);
  }

  method GeneratePassword(entropy: Entropy, len: nat) returns (password: string)
    modifies entropy`pos
    ensures password == StrongPassword(entropy.stream, old(entropy.pos), if len < 4 then 4 else len)
    ensures |password| == (if len < 4 then 4 else len) && HasEveryClass(password)
    ensures ValidatePassword(password).Ok? <==> 8 <= len <= 128
  {
    var enough := if len < 4 then 4 else len;
    StrongPasswordIsStrong(entropy.stream, entropy.pos, enough);
    GeneratedPasswordValidates(entropy.stream, entropy.pos, enough);
    password := GenerateStrongPassword(entropy, enough);
  }

  predicate IsUsernameChar(c: char) {
    IsLower(c) || IsDigit(c)
  }

  ghost predicate OnlyUsernameChars(s: string) {
    forall i :: 0 <= i < |s| ==> IsUsernameChar(s[i])
  }

  lemma AllCharsAreUsernameChars()
    ensures AllOf(ALPHANUMERIC_LOWER, IsUsernameChar)
  {
    LowerIsLower();
    DigitsAreDigits();
    JoinedSets(LOWER, IsLower, DIGITS, IsDigit, IsUsernameChar);
  }

  lemma PlainUsernameValidates(username: string)
    requires 3 <= |username| <= 32 && OnlyUsernameChars(username)
    ensures ValidateUsername(username).Ok?
  {
    AcceptedUsernames(username);
  }

  lemma PickedUsernameValidates(stream: nat -> Byte, start: nat, len: nat)
    requires 3 <= len <= 32
    ensures var u := Picked(ALPHANUMERIC_LOWER, stream, start, len);
            OnlyUsernameChars(u) && ValidateUsername(u).Ok?
  {
    AllCharsAreUsernameChars();
    var u := Picked(ALPHANUMERIC_LOWER, stream, start, len);
    forall i | 0 <= i < len
      ensures IsUsernameChar(u[i])
    {
      PickIsOfItsSet(ALPHANUMERIC_LOWER, IsUsernameChar, stream(start + i));
    }
    PlainUsernameValidates(u);
  }

  // The four bytes of each length come first, then those of the user name, then those of the password.
  ghost function UsernameLength(stream: nat -> Byte, start: nat): (n: nat)
    ensures 6 <= n <= 8
  {
    Sample(stream, start, 6, 9)
  }

  ghost function PasswordLength(stream: nat -> Byte, start: nat): (n: nat)
    ensures 12 <= n <= 17
  {
    Sample(stream, start + 4, 12, 18)
  }

  ghost function PasswordStart(stream: nat -> Byte, start: nat): nat {
    start + 8 + UsernameLength(stream, start)
  }

  ghost function UsernameOf(stream: nat -> Byte, start: nat): string {
    Picked(ALPHANUMERIC_LOWER, stream, start + 8, UsernameLength(stream, start))
  }

  ghost function PasswordOf(stream: nat -> Byte, start: nat): string {
    StrongPassword(stream, PasswordStart(stream, start), PasswordLength(stream, start))
  }

  lemma StrongPasswordValidates(stream: nat -> Byte, start: nat, len: nat)
    requires 12 <= len <= 17
    ensures var p := StrongPassword(stream, start, len);
            |p| == len && OnlyPasswordChars(p) && HasEveryClass(p) && ValidatePassword(p).Ok?
  {
    StrongPasswordIsStrong(stream, start, len);
    GeneratedPasswordValidates(stream, start, len);
  }

  /** For every stream, generated credentials validate. */
  lemma CredentialsValidate(stream: nat -> Byte, start: nat)
    ensures var u := UsernameOf(stream, start);
            6 <= |u| <= 8 && OnlyUsernameChars(u) && ValidateUsername(u).Ok?
    ensures var p := PasswordOf(stream, start);
            12 <= |p| <= 17 && OnlyPasswordChars(p) && HasEveryClass(p) && ValidatePassword(p).Ok?
  {
    PickedUsernameValidates(stream, start + 8, UsernameLength(stream, start));
    StrongPasswordValidates(stream, PasswordStart(stream, start), PasswordLength(stream, start));
  }

  // The second half of the generator, when both lengths and the user name have been drawn.
  method GeneratePasswordFor(entropy: Entropy, ghost start: nat, len: nat) returns (password: string)
    requires entropy.pos == PasswordStart(entropy.stream, start) && len == PasswordLength(entropy.stream, start)
    modifies entropy`pos
    ensures password == PasswordOf(entropy.stream, start)
  {
    password := GenerateStrongPassword(entropy, len);
  }

  method GenerateUserCredentials(entropy: Entropy) returns (username: string, password: string)
    modifies entropy`pos
    ensures username == UsernameOf(entropy.stream, old(entropy.pos))
    ensures password == PasswordOf(entropy.stream, old(entropy.pos))
  {
    ghost var start := entropy.pos;
    var usernameLen := RandomRange(entropy, 6, 9);
    var passwordLen := RandomRange(entropy, 12, 18);
    username := RandomString(entropy, usernameLen, ALPHANUMERIC_LOWER);
    password := GeneratePasswordFor(entropy, start, passwordLen);
  }
}
