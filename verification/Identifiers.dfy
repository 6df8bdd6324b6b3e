/** The shapes of identifier the adapter accepts, as predicates for the regular expressions. */
module Identifiers {

  predicate Letter(c: char) {
    'A' <= c <= 'Z' || 'a' <= c <= 'z'
  }

  predicate Digit(c: char) {
    '0' <= c <= '9'
  }

  predicate NameChar(c: char) {
    Letter(c) || Digit(c) || c == '_' || c == '.' || c == '-'
  }

  predicate ImageChar(c: char) {
    NameChar(c) || c == '/' || c == ':' || c == '@'
  }

  /** ^[A-Za-z0-9][A-Za-z0-9_.-]{0,127}$ */
  predicate ValidName(s: string) {
    1 <= |s| <= 128 && (Letter(s[0]) || Digit(s[0])) && forall i | 0 <= i < |s| :: NameChar(s[i])
  }

  /** ^[A-Za-z0-9._][A-Za-z0-9._/:@-]*$ */
  predicate ValidImage(s: string) {
    s != "" && NameChar(s[0]) && s[0] != '-' && forall i | 0 <= i < |s| :: ImageChar(s[i])
  }

  /** ^[A-Za-z_][A-Za-z0-9_]{0,127}$ */
  predicate ValidEnvKey(s: string) {
    && 1 <= |s| <= 128
    && (Letter(s[0]) || s[0] == '_')
    && forall i | 0 <= i < |s| :: Letter(s[i]) || Digit(s[i]) || s[i] == '_'
  }

  /** ^[0-9]+[A-Za-z]{0,3}$ */
  predicate ValidSize(s: string) {
    exists n | 1 <= n <= |s| :: DigitsThenLetters(s, n) && |s| <= n + 3
  }

  predicate DigitsThenLetters(s: string, n: nat) {
    && n <= |s|
    && (forall i | 0 <= i < n :: Digit(s[i]))
    && (forall i | n <= i < |s| :: Letter(s[i]))
  }

  /** Would `msb` take s for a flag? */
  predicate FlagShaped(s: string) {
    s != "" && s[0] == '-'
  }
}
