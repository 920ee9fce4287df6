/** The validators that user names and passwords must pass. */
module Validation {
  import opened Wrappers

  const MIN_PASSWORD_LENGTH := 8
  const MAX_PASSWORD_LENGTH := 128
  const MIN_USERNAME_LENGTH := 3
  const MAX_USERNAME_LENGTH := 32
  const WEAK_PASSWORDS: seq<string> := ["password", "12345678", "123456789", "qwertyui", "abcdefgh"]

  datatype PasswordError = PasswordTooShort | PasswordTooLong | TooCommon

  datatype UsernameError = UsernameTooShort | UsernameTooLong | BadCharacter | BadEdge

  // Lengths are counted in UTF-8 bytes.
  function Utf8Width(c: char): nat {
    if c as int < 0x80 then 1 else if c as int < 0x800 then 2 else if c as int < 0x1_0000 then 3 else 4
  }

  // How many codes fit in so many bytes: 7, 11, 16 and 21 bits of them are free.
  ghost function Utf8Capacity(bytes: nat): nat {
    if bytes == 0 then 0 else if bytes == 1 then 0x80 else if bytes == 2 then 0x800 else 32 * Utf8Capacity(bytes - 1)
  }

  /** UTF-8 spends the fewest bytes whose capacity exceeds the code, as section 3 of RFC 3629 lays them out. */
  lemma WidthIsTheLeast(c: char)
    ensures 1 <= Utf8Width(c) <= 4
    ensures Utf8Capacity(Utf8Width(c) - 1) <= c as int < Utf8Capacity(Utf8Width(c))
  {
    assert Utf8Capacity(3) == 0x1_0000 && Utf8Capacity(4) == 0x20_0000;
  }

  function Utf8Length(s: string): nat {
    if s == [] then 0 else Utf8Width(s[0]) + Utf8Length(s[1..])
  }

  // Only the ASCII part of lower-casing can matter to the list of weak passwords.
  function Lower(c: char): char {
    if 'A' <= c <= 'Z' then c - 'A' + 'a' else c
  }

  function LowerAll(s: string): (r: string)
    ensures |r| == |s| && forall i :: 0 <= i < |s| ==> r[i] == Lower(s[i])
  {
    seq(|s|, i requires 0 <= i < |s| => Lower(s[i]))
  }

  function ValidatePassword(password: string): Result<(), PasswordError> {
    if Utf8Length(password) < MIN_PASSWORD_LENGTH then Err(PasswordTooShort)
    else if Utf8Length(password) > MAX_PASSWORD_LENGTH then Err(PasswordTooLong)
    else if LowerAll(password) in WEAK_PASSWORDS then Err(TooCommon)
    else Ok(())
  }

  // `c` is `d`, or the capital of the letter `d`.
  ghost predicate SameLetter(c: char, d: char) {
    (c == d && !('A' <= c <= 'Z')) || ('a' <= d <= 'z' && c as int + 32 == d as int)
  }

  ghost predicate SameButForCase(p: string, q: string) {
    |p| == |q| && forall i :: 0 <= i < |p| ==> SameLetter(p[i], q[i])
  }

  lemma LoweredIff(p: string, q: string)
    ensures LowerAll(p) == q <==> SameButForCase(p, q)
  {
    if SameButForCase(p, q) {
      assert forall i :: 0 <= i < |p| ==> LowerAll(p)[i] == q[i];
      assert LowerAll(p) == q;
    }
  }

  /**
   A password is too short below 8 bytes, too long above 128, and too common if it is one of five,
     in any mixture of cases;
   every other one is accepted.
   */
  lemma AcceptedPasswords(password: string)
    ensures var r := ValidatePassword(password);
            (r == Err(PasswordTooShort) <==> Utf8Length(password) < 8) &&
            (r == Err(PasswordTooLong) <==> Utf8Length(password) > 128)
    ensures ValidatePassword(password).Ok? <==>
            8 <= Utf8Length(password) <= 128 &&
            !SameButForCase(password, "password") && !SameButForCase(password, "12345678") &&
            !SameButForCase(password, "123456789") && !SameButForCase(password, "qwertyui") &&
            !SameButForCase(password, "abcdefgh")
  {
    LoweredIff(password, "password");
    LoweredIff(password, "12345678");
    LoweredIff(password, "123456789");
    LoweredIff(password, "qwertyui");
    LoweredIff(password, "abcdefgh");
  }

  predicate Alphanumeric(c: char) {
    'a' <= c <= 'z' || 'A' <= c <= 'Z' || '0' <= c <= '9'
  }

  predicate Joiner(c: char) {
    c == '_' || c == '-'
  }

  function ValidateUsername(username: string): Result<(), UsernameError> {
    if Utf8Length(username) < MIN_USERNAME_LENGTH then Err(UsernameTooShort)
    else if Utf8Length(username) > MAX_USERNAME_LENGTH then Err(UsernameTooLong)
    else if exists i :: 0 <= i < |username| && !Alphanumeric(username[i]) && !Joiner(username[i]) then Err(BadCharacter)
    else if username == [] || Joiner(username[0]) || Joiner(username[|username| - 1]) then Err(BadEdge)
    else Ok(())
  }

  ghost predicate Ascii(s: string) {
    forall i :: 0 <= i < |s| ==> s[i] as int < 0x80
  }

  lemma {:induction false} AsciiLength(s: string)
    requires Ascii(s)
    ensures Utf8Length(s) == |s|
  {
    if s != [] {
      AsciiLength(s[1..]);
    }
  }

  /**
   An accepted user name, whatever its characters' width, is 3 to 32 plain characters with no joiner at either end.
   */
  lemma AcceptedUsernames(username: string)
    ensures ValidateUsername(username).Ok? <==>
            3 <= |username| <= 32 &&
            (forall i :: 0 <= i < |username| ==> Alphanumeric(username[i]) || Joiner(username[i])) &&
            Alphanumeric(username[0]) && Alphanumeric(username[|username| - 1])
    ensures var r := ValidateUsername(username);
            (r == Err(UsernameTooShort) <==> Utf8Length(username) < 3) &&
            (r == Err(UsernameTooLong) <==> Utf8Length(username) > 32) &&
            (r == Err(BadCharacter) <==>
             3 <= Utf8Length(username) <= 32 &&
             exists i :: 0 <= i < |username| && !Alphanumeric(username[i]) && !Joiner(username[i]))
  {
    if forall i :: 0 <= i < |username| ==> Alphanumeric(username[i]) || Joiner(username[i]) {
      AsciiLength(username);
    }
  }
}
