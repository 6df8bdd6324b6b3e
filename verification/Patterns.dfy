/** The four regular expressions identifiers are checked with, part by part, and that the predicates say the same. */
module Patterns {
  import opened Wrappers
  import opened Identifiers

  /** A bracketed character class, and how many characters of it may stand there; no upper limit is None. */
  datatype Part = Part(class_: char -> bool, least: nat, most: Option<nat>)

  /** May the first n characters of s be what p takes? */
  predicate Takes(p: Part, s: string, n: nat) {
    n <= |s| && p.least <= n && (p.most.Some? ==> n <= p.most.value) && forall i | 0 <= i < n :: p.class_(s[i])
  }

  /** A whole string against the parts one after another, however the characters are shared out between them. */
  ghost predicate Matches(parts: seq<Part>, s: string)
    decreases |parts|
  {
    if parts == [] then s == "" else exists n: nat :: Takes(parts[0], s, n) && Matches(parts[1..], s[n..])
  }

  const ALNUM := (c: char) => 'A' <= c <= 'Z' || 'a' <= c <= 'z' || '0' <= c <= '9'
  const NAME_TAIL := (c: char) => 'A' <= c <= 'Z' || 'a' <= c <= 'z' || '0' <= c <= '9' || c == '_' || c == '.' || c == '-'
  const IMAGE_HEAD := (c: char) => 'A' <= c <= 'Z' || 'a' <= c <= 'z' || '0' <= c <= '9' || c == '.' || c == '_'
  const IMAGE_TAIL := (c: char) =>
    || 'A' <= c <= 'Z' || 'a' <= c <= 'z' || '0' <= c <= '9'
    || c == '.' || c == '_' || c == '/' || c == ':' || c == '@' || c == '-'
  const ENV_HEAD := (c: char) => 'A' <= c <= 'Z' || 'a' <= c <= 'z' || c == '_'
  const ENV_TAIL := (c: char) => 'A' <= c <= 'Z' || 'a' <= c <= 'z' || '0' <= c <= '9' || c == '_'
  const DIGIT := (c: char) => '0' <= c <= '9'
  const LETTER := (c: char) => 'A' <= c <= 'Z' || 'a' <= c <= 'z'

  /** ^[A-Za-z0-9][A-Za-z0-9_.-]{0,127}$ */
  const NAME := [Part(ALNUM, 1, Some(1)), Part(NAME_TAIL, 0, Some(127))]

  /** ^[A-Za-z0-9._][A-Za-z0-9._/:@-]*$ */
  const IMAGE := [Part(IMAGE_HEAD, 1, Some(1)), Part(IMAGE_TAIL, 0, None)]

  /** ^[A-Za-z_][A-Za-z0-9_]{0,127}$ */
  const ENV_KEY := [Part(ENV_HEAD, 1, Some(1)), Part(ENV_TAIL, 0, Some(127))]

  /** ^[0-9]+[A-Za-z]{0,3}$ */
  const SIZE := [Part(DIGIT, 1, None), Part(LETTER, 0, Some(3))]

  lemma OnePart(p: Part, s: string)
    ensures Matches([p], s) <==> Takes(p, s, |s|)
  {
    assert [p][1..] == [];
    if Takes(p, s, |s|) {
      assert Matches([], s[|s|..]);
    }
  }

  lemma TwoParts(p: Part, q: Part, s: string)
    ensures Matches([p, q], s) <==> exists n: nat :: Takes(p, s, n) && Takes(q, s[n..], |s| - n)
  {
    assert [p, q][1..] == [q];
    forall n: nat | n <= |s|
      ensures Matches([q], s[n..]) <==> Takes(q, s[n..], |s| - n)
    {
      OnePart(q, s[n..]);
    }
    if n: nat :| Takes(p, s, n) && Takes(q, s[n..], |s| - n) {
      assert Matches([p, q][1..], s[n..]);
    }
  }

  /** A head of one character, and a tail. */
  lemma HeadAndTail(head: char -> bool, q: Part, s: string)
    ensures Matches([Part(head, 1, Some(1)), q], s) <==> s != "" && head(s[0]) && Takes(q, s[1..], |s| - 1)
  {
    var p := Part(head, 1, Some(1));
    TwoParts(p, q, s);
    if s != "" && head(s[0]) && Takes(q, s[1..], |s| - 1) {
      assert Takes(p, s, 1);
    }
  }

  lemma NamesExactly(s: string)
    ensures ValidName(s) <==> Matches(NAME, s)
  {
    HeadAndTail(ALNUM, NAME[1], s);
    TailExactly(s, NAME_TAIL);
  }

  lemma ImagesExactly(s: string)
    ensures ValidImage(s) <==> Matches(IMAGE, s)
  {
    HeadAndTail(IMAGE_HEAD, IMAGE[1], s);
    TailExactly(s, IMAGE_TAIL);
  }

  lemma EnvKeysExactly(s: string)
    ensures ValidEnvKey(s) <==> Matches(ENV_KEY, s)
  {
    HeadAndTail(ENV_HEAD, ENV_KEY[1], s);
    TailExactly(s, ENV_TAIL);
  }

  lemma TailExactly(s: string, class_: char -> bool)
    ensures s != "" ==> ((forall i | 0 <= i < |s[1..]| :: class_(s[1..][i])) <==> forall i | 1 <= i < |s| :: class_(s[i]))
  {
    if s != "" {
      assert forall i | 1 <= i < |s| :: s[i] == s[1..][i - 1];
    }
  }

  lemma SizesExactly(s: string)
    ensures ValidSize(s) <==> Matches(SIZE, s)
  {
    TwoParts(SIZE[0], SIZE[1], s);
    forall n: nat | n <= |s|
      ensures Takes(SIZE[0], s, n) && Takes(SIZE[1], s[n..], |s| - n)
              <==> 1 <= n && DigitsThenLetters(s, n) && |s| <= n + 3
    {
      assert forall i | n <= i < |s| :: s[i] == s[n..][i - n];
    }
  }
}
