/**
 The shell script that installs SSH keys, and the part of a POSIX shell needed
 to say what running it does.

 Words are formed as the Shell Command Language of IEEE Std 1003.1-2017 has it:
 section 2.2.1 for the backslash, 2.2.2 for single quotes and 2.3 for blanks,
 newlines, operators and comments. Anything the script never uses (double
 quotes, expansions, globs, pipelines) makes the lexer give up, so that a
 result also shows that none of it is reached.
 */
module SshScript {
  import opened Wrappers
  import opened Text

  const NUL: char := '\0'
  const QUOTE: char := '\''
  const BACKSLASH: char := '\\'

  // ---- what the adapter writes ----

  /** Single-quote s; an embedded quote becomes close, escaped quote, open. */
  function ShellSingleQuote(s: string): string {
    [QUOTE] + QuotedBody(s) + [QUOTE]
  }

  function QuotedBody(s: string): string {
    ReplaceAll(s, "'", "'\\''")
  }

  const SSH_DIR := "/root/.ssh"
  const KEYS_FILE := SSH_DIR + "/authorized_keys"
  const SHEBANG := "#!/bin/sh\n"
  const PROLOGUE :=
    SHEBANG + "set -eu\n" + ("mkdir -p " + SSH_DIR + "\n") + ("chmod 700 " + SSH_DIR + "\n") + "{\n"
  const EPILOGUE := ("} > " + KEYS_FILE + "\n") + ("chmod 600 " + KEYS_FILE + "\n")
  const FORMAT := "%s\\n"

  function PrintLine(key: string): string {
    "printf '%s\\n' " + ShellSingleQuote(key) + "\n"
  }

  function PrintLines(keys: seq<string>): string {
    if keys == [] then "" else PrintLines(keys[..|keys| - 1]) + PrintLine(keys[|keys| - 1])
  }

  function Script(keys: seq<string>): string {
    PROLOGUE + PrintLines(keys) + EPILOGUE
  }

  method SshKeysScript(keys: seq<string>) returns (script: string)
    ensures script == Script(keys)
  {
    script := PROLOGUE;
    for i := 0 to |keys|
      invariant script == PROLOGUE + PrintLines(keys[..i])
    {
      assert keys[..i + 1][..i] == keys[..i];
      script := script + "printf '%s\\n' " + ShellSingleQuote(keys[i]) + "\n";
      assert script == PROLOGUE + (PrintLines(keys[..i]) + PrintLine(keys[i]));
    }
    assert keys[..|keys|] == keys;
    script := script + EPILOGUE;
  }

  // ---- what a shell reads ----

  /** A word after quote removal; `quoted` records that some of it was quoted. */
  datatype Token =
    | Word(text: string, quoted: bool)
    | Redirect
    | Newline

  /** The word being read, if any. */
  type Partial = Option<Token>

  function Flush(word: Partial): seq<Token> {
    if word.Some? then [word.value] else []
  }

  function Grow(word: Partial, text: string, quoted: bool): Partial {
    match word
    case Some(Word(sofar, q)) => Some(Word(sofar + text, q || quoted))
    case _ => Some(Word(text, quoted))
  }

  /** Characters with a meaning to the shell that the lexer does not go into. */
  predicate Unsupported(c: char) {
    || c == NUL || c == '"' || c == '$' || c == '`' || c == ';' || c == '&' || c == '|' || c == '<'
    || c == '(' || c == ')' || c == '*' || c == '?' || c == '[' || c == ']' || c == '~' || c == '!'
  }

  function Emit(tokens: seq<Token>, rest: Option<seq<Token>>): Option<seq<Token>> {
    if rest.Some? then Some(tokens + rest.value) else None
  }

  /** The text up to the next single quote, and what follows it. */
  function UpToQuote(s: string): Option<(string, string)> {
    SplitFirst(s, QUOTE)
  }

  /** Drops a comment, up to its newline. */
  function SkipComment(s: string): (r: string)
    ensures |r| <= |s|
  {
    if s == "" || s[0] == '\n' then s else SkipComment(s[1..])
  }

  function Lex(s: string, word: Partial): Option<seq<Token>>
    decreases |s|
  {
    if s == "" then Some(Flush(word))
    else
      var c, rest := s[0], s[1..];
      if c == QUOTE then
        match UpToQuote(rest)
        case None => None
        case Some((inside, after)) => if NUL in inside then None else Lex(after, Grow(word, inside, true))
      else if c == BACKSLASH then
        if rest == "" || rest[0] == NUL then None
        else if rest[0] == '\n' then Lex(rest[1..], word)
        else Lex(rest[1..], Grow(word, [rest[0]], true))
      else if c == '\n' then Emit(Flush(word) + [Newline], Lex(rest, None))
      else if c == ' ' || c == '\t' then Emit(Flush(word), Lex(rest, None))
      else if c == '>' then
        if word.Some? then None else Emit([Redirect], Lex(rest, None))
      else if c == '#' && word == None then Lex(SkipComment(rest), None)
      else if Unsupported(c) then None
      else Lex(rest, Grow(word, [c], false))
  }

  lemma LexQuoted(inside: string, after: string, word: Partial)
    requires QUOTE !in inside && NUL !in inside
    ensures Lex([QUOTE] + inside + [QUOTE] + after, word) == Lex(after, Grow(word, inside, true))
  {
    assert ([QUOTE] + inside + [QUOTE] + after)[1..] == inside + [QUOTE] + after;
    SplitFirstOf(inside, QUOTE, after);
  }

  lemma LexEscaped(c: char, after: string, word: Partial)
    requires c != NUL && c != '\n'
    ensures Lex([BACKSLASH, c] + after, word) == Lex(after, Grow(word, [c], true))
  {
    var s := [BACKSLASH, c] + after;
    assert s[1..] == [c] + after;
    assert s[1..][1..] == after;
  }

  lemma {:induction false} NothingToReplace(s: string)
    requires QUOTE !in s
    ensures QuotedBody(s) == s
  {
    if s != "" {
      NothingToReplace(s[1..]);
      assert s == [s[0]] + s[1..];
    }
  }

  lemma {:induction false} BodyAtQuote(before: string, after: string)
    requires QUOTE !in before
    ensures QuotedBody(before + [QUOTE] + after) == before + ("'\\''" + QuotedBody(after))
  {
    var s := before + [QUOTE] + after;
    if before == "" {
      assert s == "'" + after && s[1..] == after;
    } else {
      assert s[0] == before[0] && s[0] != QUOTE;
      assert !("'" <= s);
      assert s[1..] == before[1..] + [QUOTE] + after;
      BodyAtQuote(before[1..], after);
      assert [s[0]] + (before[1..] + ("'\\''" + QuotedBody(after))) == before + ("'\\''" + QuotedBody(after));
    }
  }

  lemma QuoteSplits(before: string, after: string, rest: string)
    requires QUOTE !in before
    ensures ShellSingleQuote(before + [QUOTE] + after) + rest
            == [QUOTE] + before + [QUOTE] + ([BACKSLASH, QUOTE] + (ShellSingleQuote(after) + rest))
  {
    BodyAtQuote(before, after);
  }

  lemma GrowTwice(word: Partial, a: string, b: string)
    requires word.Some? ==> word.value.Word?
    ensures Grow(Grow(word, a, true), b, true) == Grow(word, a + b, true)
  {
    if word.Some? {
      assert word.value.text + a + b == word.value.text + (a + b);
    }
  }

  /** Every NUL-free string, quoted, is read back as one word: itself. */
  lemma {:induction false} QuoteIsOneWord(s: string, word: Partial, rest: string)
    requires NUL !in s
    requires word.Some? ==> word.value.Word?
    ensures Lex(ShellSingleQuote(s) + rest, word) == Lex(rest, Grow(word, s, true))
    decreases |s|
  {
    match SplitFirst(s, QUOTE)
    case None =>
      NothingToReplace(s);
      LexQuoted(s, rest, word);
    case Some((before, after)) =>
      var tail := ShellSingleQuote(after) + rest;
      QuoteSplits(before, after, rest);
      LexQuoted(before, [BACKSLASH, QUOTE] + tail, word);
      LexEscaped(QUOTE, tail, Grow(word, before, true));
      GrowTwice(word, before, [QUOTE]);
      QuoteIsOneWord(after, Grow(word, before + [QUOTE], true), rest);
      GrowTwice(word, before + [QUOTE], after);
  }

  // ---- the tokens of the whole script ----

  predicate Plain(c: char) {
    && c != QUOTE && c != BACKSLASH && c != ' ' && c != '\t' && c != '\n' && c != '>' && c != '#'
    && !Unsupported(c)
  }

  predicate PlainWord(w: string) {
    w != "" && forall i | 0 <= i < |w| :: Plain(w[i])
  }

  lemma EmitTwice(a: seq<Token>, b: seq<Token>, rest: Option<seq<Token>>)
    ensures Emit(a, Emit(b, rest)) == Emit(a + b, rest)
  {
    if rest.Some? {
      assert a + (b + rest.value) == a + b + rest.value;
    }
  }

  lemma {:induction false} LexPlain(w: string, rest: string, word: Partial)
    requires PlainWord(w)
    requires word.Some? ==> word.value.Word?
    ensures Lex(w + rest, word) == Lex(rest, Grow(word, w, false))
    decreases |w|
  {
    var grown := Grow(word, [w[0]], false);
    assert (w + rest)[1..] == w[1..] + rest;
    assert Plain(w[0]);
    assert Lex(w + rest, word) == Lex(w[1..] + rest, grown);
    if |w| > 1 {
      LexPlain(w[1..], rest, grown);
      assert word.Some? ==> word.value.text + [w[0]] + w[1..] == word.value.text + w;
      assert [w[0]] + w[1..] == w;
    } else {
      assert w == [w[0]] && w[1..] + rest == rest;
    }
  }

  /** A line of words: blanks between them, a newline after the last. */
  function Line(words: seq<string>): string
    requires words != []
  {
    if |words| == 1 then words[0] + "\n" else words[0] + " " + Line(words[1..])
  }

  function LineTokens(words: seq<string>): seq<Token> {
    if words == [] then [Newline] else [Word(words[0], false)] + LineTokens(words[1..])
  }

  lemma {:induction false} LexLine(words: seq<string>, rest: string)
    requires words != [] && forall i | 0 <= i < |words| :: PlainWord(words[i])
    ensures Lex(Line(words) + rest, None) == Emit(LineTokens(words), Lex(rest, None))
    decreases |words|
  {
    var w := words[0];
    if |words| == 1 {
      assert Line(words) + rest == w + ("\n" + rest);
      LexPlain(w, "\n" + rest, None);
      assert ("\n" + rest)[1..] == rest;
      assert LineTokens(words[1..]) == [Newline];
    } else {
      var more := Line(words[1..]) + rest;
      assert Line(words) + rest == w + (" " + more);
      LexPlain(w, " " + more, None);
      assert (" " + more)[1..] == more;
      LexLine(words[1..], rest);
      EmitTwice([Word(w, false)], LineTokens(words[1..]), Lex(rest, None));
    }
  }

  /** The three words of one key's printf, and the newline that ends it. */
  function PrintTokens(key: string): seq<Token> {
    [Word("printf", false), Word(FORMAT, true), Word(key, true), Newline]
  }

  function AllPrintTokens(keys: seq<string>): seq<Token> {
    if keys == [] then [] else AllPrintTokens(keys[..|keys| - 1]) + PrintTokens(keys[|keys| - 1])
  }

  lemma LexBlank(word: Token, rest: string)
    ensures Lex(" " + rest, Some(word)) == Emit([word], Lex(rest, None))
  {
    assert (" " + rest)[1..] == rest;
  }

  lemma LexNewline(word: Token, rest: string)
    ensures Lex("\n" + rest, Some(word)) == Emit([word, Newline], Lex(rest, None))
  {
    assert ("\n" + rest)[1..] == rest;
    assert [word] + [Newline] == [word, Newline];
  }

  lemma PrintLineSplits(key: string, rest: string)
    ensures var quoted := ShellSingleQuote(key) + ("\n" + rest);
            PrintLine(key) + rest == "printf" + (" " + ([QUOTE] + FORMAT + [QUOTE] + (" " + quoted)))
  {
    assert "printf '%s\\n' " == "printf" + (" " + ([QUOTE] + FORMAT + [QUOTE] + " "));
  }

  lemma PrintfIsPlain()
    ensures PlainWord("printf")
  {
  }

  lemma FormatIsQuotable()
    ensures QUOTE !in FORMAT && NUL !in FORMAT
  {
  }

  lemma LexPrintLine(key: string, rest: string)
    requires NUL !in key
    ensures Lex(PrintLine(key) + rest, None) == Emit(PrintTokens(key), Lex(rest, None))
  {
    var quoted := ShellSingleQuote(key) + ("\n" + rest);
    var format := [QUOTE] + FORMAT + [QUOTE] + (" " + quoted);
    PrintLineSplits(key, rest);
    var w1, w2, w3 := Word("printf", false), Word(FORMAT, true), Word(key, true);
    var after := Lex(rest, None);
    assert Lex(quoted, None) == Emit([w3, Newline], after) by {
      QuoteIsOneWord(key, None, "\n" + rest);
      LexNewline(w3, rest);
    }
    assert Lex(format, None) == Emit([w2], Lex(quoted, None)) by {
      FormatIsQuotable();
      LexQuoted(FORMAT, " " + quoted, None);
      LexBlank(w2, quoted);
    }
    assert Lex("printf" + (" " + format), None) == Emit([w1], Lex(format, None)) by {
      PrintfIsPlain();
      LexPlain("printf", " " + format, None);
      assert "" + "printf" == "printf";
      LexBlank(w1, format);
    }
    EmitTwice([w2], [w3, Newline], after);
    EmitTwice([w1], [w2] + [w3, Newline], after);
    assert [w1] + ([w2] + [w3, Newline]) == PrintTokens(key);
  }

  lemma {:induction false} LexPrintLines(keys: seq<string>, rest: string)
    requires forall i | 0 <= i < |keys| :: NUL !in keys[i]
    ensures Lex(PrintLines(keys) + rest, None) == Emit(AllPrintTokens(keys), Lex(rest, None))
    decreases |keys|
  {
    if keys == [] {
      assert PrintLines(keys) + rest == rest;
      EmitNothing(Lex(rest, None));
    } else {
      var init, last := keys[..|keys| - 1], keys[|keys| - 1];
      assert PrintLines(keys) + rest == PrintLines(init) + (PrintLine(last) + rest);
      LexPrintLines(init, PrintLine(last) + rest);
      LexPrintLine(last, rest);
      EmitTwice(AllPrintTokens(init), PrintTokens(last), Lex(rest, None));
    }
  }

  lemma EmitNothing(rest: Option<seq<Token>>)
    ensures Emit([], rest) == rest
  {
    if rest.Some? {
      assert [] + rest.value == rest.value;
    }
  }

  function Lines(lines: seq<seq<string>>): string
    requires forall i | 0 <= i < |lines| :: lines[i] != []
  {
    if lines == [] then "" else Line(lines[0]) + Lines(lines[1..])
  }

  function LinesTokens(lines: seq<seq<string>>): seq<Token> {
    if lines == [] then [] else LineTokens(lines[0]) + LinesTokens(lines[1..])
  }

  ghost predicate PlainLines(lines: seq<seq<string>>) {
    && (forall i | 0 <= i < |lines| :: lines[i] != [])
    && (forall i, j | 0 <= i < |lines| && 0 <= j < |lines[i]| :: PlainWord(lines[i][j]))
  }

  lemma {:induction false} LexLines(lines: seq<seq<string>>, rest: string)
    requires PlainLines(lines)
    ensures Lex(Lines(lines) + rest, None) == Emit(LinesTokens(lines), Lex(rest, None))
    decreases |lines|
  {
    if lines == [] {
      assert Lines(lines) + rest == rest;
      EmitNothing(Lex(rest, None));
    } else {
      var more := Lines(lines[1..]) + rest;
      assert Lines(lines) + rest == Line(lines[0]) + more;
      LexLine(lines[0], more);
      LexLines(lines[1..], rest);
      EmitTwice(LineTokens(lines[0]), LinesTokens(lines[1..]), Lex(rest, None));
    }
  }

  const SET_LINE := ["set", "-eu"]
  const MKDIR_LINE := ["mkdir", "-p", SSH_DIR]
  const CHMOD_DIR_LINE := ["chmod", "700", SSH_DIR]
  const OPEN_LINE := ["{"]
  const CHMOD_FILE_LINE := ["chmod", "600", KEYS_FILE]

  const PROLOGUE_LINES := [SET_LINE, MKDIR_LINE, CHMOD_DIR_LINE, OPEN_LINE]
  const EPILOGUE_LINES := [[KEYS_FILE], CHMOD_FILE_LINE]

  lemma LexShebang(rest: string)
    ensures Lex(SHEBANG + rest, None) == Lex("\n" + rest, None)
  {
    var s := SHEBANG + rest;
    assert s[1..] == "!/bin/sh\n" + rest;
    SkipTo("!/bin/sh", "\n" + rest);
    assert "!/bin/sh" + ("\n" + rest) == "!/bin/sh\n" + rest;
  }

  lemma {:induction false} SkipTo(comment: string, rest: string)
    requires '\n' !in comment && rest != "" && rest[0] == '\n'
    ensures SkipComment(comment + rest) == rest
  {
    if comment == "" {
      assert comment + rest == rest;
    } else {
      assert (comment + rest)[1..] == comment[1..] + rest;
      SkipTo(comment[1..], rest);
    }
  }

  lemma CommandsArePlain()
    ensures PlainWord("set") && PlainWord("-eu") && PlainWord("mkdir") && PlainWord("-p")
    ensures PlainWord("chmod") && PlainWord("700") && PlainWord("600") && PlainWord("{") && PlainWord("}")
  {
  }

  lemma PathsArePlain()
    ensures PlainWord(SSH_DIR) && PlainWord(KEYS_FILE)
  {
  }

  lemma LinesArePlain(lines: seq<seq<string>>)
    requires lines == PROLOGUE_LINES || lines == EPILOGUE_LINES
    ensures PlainLines(lines)
  {
    CommandsArePlain();
    PathsArePlain();
  }

  lemma OneWord(a: string)
    ensures Line([a]) == a + "\n"
  {
  }

  lemma TwoWords(a: string, b: string)
    ensures Line([a, b]) == a + " " + (b + "\n")
  {
    assert [a, b][1..] == [b];
    OneWord(b);
  }

  /** A line of three words of which the first two are written together. */
  lemma ThreeWords(a: string, b: string, c: string, start: string)
    requires start == a + " " + b + " "
    ensures Line([a, b, c]) == start + c + "\n"
  {
    assert [a, b, c][1..] == [b, c];
    TwoWords(b, c);
    assert a + " " + (b + " " + (c + "\n")) == start + c + "\n";
  }

  lemma PrologueIsLines()
    ensures PROLOGUE == SHEBANG + Line(SET_LINE) + Line(MKDIR_LINE) + Line(CHMOD_DIR_LINE) + Line(OPEN_LINE)
  {
    TwoWords("set", "-eu");
    assert "set" + " " + ("-eu" + "\n") == "set -eu\n";
    assert "mkdir" + " " + "-p" + " " == "mkdir -p ";
    ThreeWords("mkdir", "-p", SSH_DIR, "mkdir -p ");
    assert "chmod" + " " + "700" + " " == "chmod 700 ";
    ThreeWords("chmod", "700", SSH_DIR, "chmod 700 ");
    OneWord("{");
    assert "{" + "\n" == "{\n";
  }

  lemma RedirectLine(start: string, file: string)
    ensures start + file + "\n" == start + Line([file])
  {
    OneWord(file);
  }

  lemma EpilogueIsLines()
    ensures EPILOGUE == "} > " + Line([KEYS_FILE]) + Line(CHMOD_FILE_LINE)
  {
    RedirectLine("} > ", KEYS_FILE);
    assert "chmod" + " " + "600" + " " == "chmod 600 ";
    ThreeWords("chmod", "600", KEYS_FILE, "chmod 600 ");
  }

  lemma LinesFront(line: seq<string>, lines: seq<seq<string>>)
    requires line != [] && forall i | 0 <= i < |lines| :: lines[i] != []
    ensures Lines([line] + lines) == Line(line) + Lines(lines)
  {
    assert ([line] + lines)[1..] == lines;
  }

  lemma LinesOfTwo(a: seq<string>, b: seq<string>)
    requires a != [] && b != []
    ensures Lines([a, b]) == Line(a) + Line(b)
  {
    LinesFront(b, []);
    LinesFront(a, [b]);
    assert [b] + [] == [b] && [a] + [b] == [a, b];
    assert Line(b) + "" == Line(b);
  }

  lemma LinesOfFour(a: seq<string>, b: seq<string>, c: seq<string>, d: seq<string>)
    requires a != [] && b != [] && c != [] && d != []
    ensures Lines([a, b, c, d]) == Line(a) + (Line(b) + (Line(c) + Line(d)))
  {
    LinesOfTwo(c, d);
    LinesFront(b, [c, d]);
    LinesFront(a, [b, c, d]);
    assert [b] + [c, d] == [b, c, d] && [a] + [b, c, d] == [a, b, c, d];
  }

  /** The newline that ends the comment is a token of its own. */
  const PROLOGUE_TOKENS := [Newline] + LinesTokens(PROLOGUE_LINES)
  const EPILOGUE_TOKENS := [Word("}", false), Redirect] + LinesTokens(EPILOGUE_LINES)

  lemma LexPrologue(lines: seq<seq<string>>, rest: string)
    requires PlainLines(lines)
    ensures Lex(SHEBANG + Lines(lines) + rest, None) == Emit([Newline] + LinesTokens(lines), Lex(rest, None))
  {
    var more := Lines(lines) + rest;
    assert SHEBANG + Lines(lines) + rest == SHEBANG + more;
    LexShebang(more);
    assert ("\n" + more)[1..] == more;
    assert Flush(None) + [Newline] == [Newline];
    assert Lex("\n" + more, None) == Emit([Newline], Lex(more, None));
    LexLines(lines, rest);
    EmitTwice([Newline], LinesTokens(lines), Lex(rest, None));
  }

  lemma LexRedirect(text: string, tokens: seq<Token>)
    requires Lex(text, None) == Some(tokens)
    ensures Lex("> " + text, None) == Some([Redirect] + tokens)
  {
    assert ("> " + text)[1..] == " " + text;
    assert (" " + text)[1..] == text;
    EmitNothing(Lex(text, None));
  }

  lemma LexCloseBrace(text: string, tokens: seq<Token>)
    requires Lex(text, None) == Some(tokens)
    ensures Lex("} " + text, None) == Some([Word("}", false)] + tokens)
  {
    assert ("} " + text)[1..] == " " + text;
    LexBlank(Word("}", false), text);
    assert Plain('}');
  }

  lemma LexBraceRedirect(text: string, tokens: seq<Token>)
    requires Lex(text, None) == Some(tokens)
    ensures Lex("} > " + text, None) == Some([Word("}", false)] + ([Redirect] + tokens))
  {
    LexRedirect(text, tokens);
    LexCloseBrace("> " + text, [Redirect] + tokens);
    assert "} > " + text == "} " + ("> " + text);
  }

  lemma LexLastLines(lines: seq<seq<string>>)
    requires PlainLines(lines)
    ensures Lex(Lines(lines), None) == Some(LinesTokens(lines))
  {
    LexLines(lines, "");
    assert Lines(lines) + "" == Lines(lines);
    assert LinesTokens(lines) + [] == LinesTokens(lines);
  }

  lemma LexEpilogue(lines: seq<seq<string>>)
    requires PlainLines(lines)
    ensures Lex("} > " + Lines(lines), None) == Some([Word("}", false), Redirect] + LinesTokens(lines))
  {
    var tokens := LinesTokens(lines);
    LexLastLines(lines);
    LexBraceRedirect(Lines(lines), tokens);
    assert [Word("}", false)] + ([Redirect] + tokens) == [Word("}", false), Redirect] + tokens;
  }

  lemma LexThree(first: string, second: string, third: string, t1: seq<Token>, t2: seq<Token>, t3: seq<Token>)
    requires Lex(first + (second + third), None) == Emit(t1, Lex(second + third, None))
    requires Lex(second + third, None) == Emit(t2, Lex(third, None))
    requires Lex(third, None) == Some(t3)
    ensures Lex(first + second + third, None) == Some(t1 + t2 + t3)
  {
    assert first + (second + third) == first + second + third;
    assert t1 + (t2 + t3) == t1 + t2 + t3;
  }

  lemma Regroup(a: string, b: string, c: string, d: string, e: string)
    ensures a + b + c + d + e == a + (b + (c + (d + e)))
  {
  }

  lemma PrologueParts()
    ensures PlainLines(PROLOGUE_LINES) && PROLOGUE == SHEBANG + Lines(PROLOGUE_LINES)
  {
    LinesArePlain(PROLOGUE_LINES);
    assert PROLOGUE == SHEBANG + Lines(PROLOGUE_LINES) by {
      PrologueIsLines();
      LinesOfFour(SET_LINE, MKDIR_LINE, CHMOD_DIR_LINE, OPEN_LINE);
      Regroup(SHEBANG, Line(SET_LINE), Line(MKDIR_LINE), Line(CHMOD_DIR_LINE), Line(OPEN_LINE));
    }
  }

  lemma EpilogueParts()
    ensures PlainLines(EPILOGUE_LINES) && EPILOGUE == "} > " + Lines(EPILOGUE_LINES)
  {
    LinesArePlain(EPILOGUE_LINES);
    assert EPILOGUE == "} > " + Lines(EPILOGUE_LINES) by {
      EpilogueIsLines();
      LinesOfTwo([KEYS_FILE], CHMOD_FILE_LINE);
      StartThenLines("} > ", Line([KEYS_FILE]), Line(CHMOD_FILE_LINE));
    }
  }

  lemma StartThenLines(start: string, a: string, b: string)
    ensures start + a + b == start + (a + b)
  {
  }

  /** The script as the shell reads it: per key, one printf of three words, the last being the key. */
  lemma ScriptTokens(keys: seq<string>)
    requires forall i | 0 <= i < |keys| :: NUL !in keys[i]
    ensures Lex(Script(keys), None) == Some(PROLOGUE_TOKENS + AllPrintTokens(keys) + EPILOGUE_TOKENS)
  {
    PrologueParts();
    EpilogueParts();
    LexPrologue(PROLOGUE_LINES, PrintLines(keys) + EPILOGUE);
    LexPrintLines(keys, EPILOGUE);
    LexEpilogue(EPILOGUE_LINES);
    LexThree(PROLOGUE, PrintLines(keys), EPILOGUE, PROLOGUE_TOKENS, AllPrintTokens(keys), EPILOGUE_TOKENS);
  }

  // ---- what running it does ----

  /** Where the guest looks for the keys that let root in. */
  const ROOT_SSH := "/root/.ssh"
  const AUTHORIZED_KEYS := "/root/.ssh/authorized_keys"

  lemma PathsAreRoots()
    ensures SSH_DIR == ROOT_SSH && KEYS_FILE == AUTHORIZED_KEYS
  {
  }

  /** The guest as far as the script touches it. */
  datatype Guest = Guest(dirs: set<string>, files: map<string, string>, modes: map<string, string>)

  /** A brace group being run: what it printed, and whether it holds a command. */
  datatype Group = Group(output: string, commands: nat)

  function Words(line: seq<Token>): Option<seq<string>> {
    if line == [] then Some([])
    else if !line[0].Word? then None
    else
      match Words(line[1..])
      case None => None
      case Some(rest) => Some([line[0].text] + rest)
  }

  /** A simple command outside the group; under `set -e` any failure ends the script. */
  function RunSimple(g: Guest, words: seq<string>): Option<Guest> {
    if words == ["set", "-eu"] then Some(g)
    else if |words| == 3 && words[0] == "mkdir" && words[1] == "-p" then Some(g.(dirs := g.dirs + {words[2]}))
    else if |words| == 3 && words[0] == "chmod" && (words[2] in g.dirs || words[2] in g.files) then
      Some(g.(modes := g.modes[words[2] := words[1]]))
    else None
  }

  /** `printf '%s\n' arg`. */
  function RunPrintf(words: seq<string>): Option<string> {
    if |words| == 3 && words[0] == "printf" && words[1] == "%s\\n" then Some(words[2] + "\n") else None
  }

  /** Where the next newline token is. */
  function LineEnd(tokens: seq<Token>): (n: nat)
    ensures n <= |tokens|
    ensures n < |tokens| ==> tokens[n] == Newline
    ensures forall i | 0 <= i < n :: tokens[i] != Newline
  {
    if tokens == [] || tokens[0] == Newline then 0 else 1 + LineEnd(tokens[1..])
  }

  /** The directory a path names a file in. */
  function DirOf(path: string): string {
    match SplitLast(path, '/')
    case None => ""
    case Some((dir, _)) => dir
  }

  lemma KeysFileDir()
    ensures DirOf(KEYS_FILE) == SSH_DIR
  {
    SplitLastOf(SSH_DIR, '/', "authorized_keys");
    assert KEYS_FILE == SSH_DIR + ['/'] + "authorized_keys";
  }

  /** Runs the commands line by line; braces are reserved words only when unquoted. */
  function RunTokens(tokens: seq<Token>, g: Guest, group: Option<Group>): Option<Guest>
    decreases |tokens|
  {
    if tokens == [] then (if group == None then Some(g) else None)
    else
      var n := LineEnd(tokens);
      if n == |tokens| then None
      else
        var line, rest := tokens[..n], tokens[n + 1..];
        if line == [] then RunTokens(rest, g, group)
        else
          match group
          case None =>
            if line == [Word("{", false)] then RunTokens(rest, g, Some(Group("", 0)))
            else if Words(line) == None then None
            else
              (match RunSimple(g, Words(line).value)
               case None => None
               case Some(g') => RunTokens(rest, g', None))
          case Some(Group(output, commands)) =>
            if line[0] == Word("}", false) then
              if commands > 0 && |line| == 3 && line[1] == Redirect && line[2].Word? && DirOf(line[2].text) in g.dirs
              then RunTokens(rest, g.(files := g.files[line[2].text := output]), None)
              else None
            else if Words(line) == None then None
            else
              (match RunPrintf(Words(line).value)
               case None => None
               case Some(text) => RunTokens(rest, g, Some(Group(output + text, commands + 1))))
  }

  /** The guest after a script, started on a bare guest; None if the script does not run cleanly. */
  function RunScript(script: string): Option<Guest> {
    match Lex(script, None)
    case None => None
    case Some(tokens) => RunTokens(tokens, Guest({}, map[], map[]), None)
  }

  /** The keys one per line. */
  function OnePerLine(keys: seq<string>): string {
    if keys == [] then "" else OnePerLine(keys[..|keys| - 1]) + (keys[|keys| - 1] + "\n")
  }

  /** One line of tokens, taken off the front. */
  lemma {:induction false} LineEndOf(line: seq<Token>, rest: seq<Token>)
    requires Newline !in line
    ensures LineEnd(line + [Newline] + rest) == |line|
  {
    var tokens := line + [Newline] + rest;
    if line != [] {
      assert tokens[0] == line[0] && line[0] != Newline;
      assert tokens[1..] == line[1..] + [Newline] + rest;
      LineEndOf(line[1..], rest);
    }
  }

  lemma TakeLine(line: seq<Token>, rest: seq<Token>)
    requires Newline !in line
    ensures var tokens := line + [Newline] + rest;
            LineEnd(tokens) == |line| < |tokens| && tokens[..|line|] == line && tokens[|line| + 1..] == rest
  {
    LineEndOf(line, rest);
  }

  function WordTokens(words: seq<string>): seq<Token> {
    if words == [] then [] else [Word(words[0], false)] + WordTokens(words[1..])
  }

  lemma {:induction false} WordsOfTokens(words: seq<string>)
    ensures LineTokens(words) == WordTokens(words) + [Newline]
    ensures Words(WordTokens(words)) == Some(words) && Newline !in WordTokens(words)
    ensures |WordTokens(words)| == |words|
  {
    if words != [] {
      WordsOfTokens(words[1..]);
      assert WordTokens(words)[1..] == WordTokens(words[1..]);
      assert words == [words[0]] + words[1..];
    }
  }

  /** Running one simple command of unquoted words. */
  lemma RunLine(words: seq<string>, rest: seq<Token>, g: Guest, g': Guest)
    requires words != [] && words[0] != "{" && RunSimple(g, words) == Some(g')
    ensures RunTokens(LineTokens(words) + rest, g, None) == RunTokens(rest, g', None)
  {
    WordsOfTokens(words);
    TakeLine(WordTokens(words), rest);
    assert WordTokens(words)[0] == Word(words[0], false);
  }

  lemma RunOpen(rest: seq<Token>, g: Guest)
    ensures RunTokens(LineTokens(OPEN_LINE) + rest, g, None) == RunTokens(rest, g, Some(Group("", 0)))
  {
    WordsOfTokens(OPEN_LINE);
    assert OPEN_LINE[1..] == [];
    assert WordTokens(OPEN_LINE) == [Word("{", false)];
    TakeLine(WordTokens(OPEN_LINE), rest);
  }

  lemma PrintfPrints(key: string)
    ensures RunPrintf(["printf", FORMAT, key]) == Some(key + "\n")
  {
  }

  lemma WordsOfThree(a: Token, b: Token, c: Token)
    requires a.Word? && b.Word? && c.Word?
    ensures Words([a, b, c]) == Some([a.text, b.text, c.text])
  {
    assert [c][1..] == [] && [c.text] + [] == [c.text];
    assert Words([c]) == Some([c.text]);
    assert [b, c][1..] == [c] && [a, b, c][1..] == [b, c];
    assert Words([b, c]) == Some([b.text] + [c.text]);
    assert [a.text] + ([b.text] + [c.text]) == [a.text, b.text, c.text];
  }

  lemma RunPrint(key: string, rest: seq<Token>, g: Guest, group: Group)
    ensures RunTokens(PrintTokens(key) + rest, g, Some(group))
            == RunTokens(rest, g, Some(Group(group.output + (key + "\n"), group.commands + 1)))
  {
    var line := [Word("printf", false), Word(FORMAT, true), Word(key, true)];
    assert PrintTokens(key) == line + [Newline];
    TakeLine(line, rest);
    WordsOfThree(line[0], line[1], line[2]);
    assert Words(line) == Some(["printf", FORMAT, key]);
    PrintfPrints(key);
    assert line[0] != Word("}", false);
  }

  lemma {:induction false} RunPrints(keys: seq<string>, rest: seq<Token>, g: Guest, group: Group)
    ensures RunTokens(AllPrintTokens(keys) + rest, g, Some(group))
            == RunTokens(rest, g, Some(Group(group.output + OnePerLine(keys), group.commands + |keys|)))
    decreases |keys|
  {
    if keys == [] {
      assert AllPrintTokens(keys) + rest == rest;
      assert group.output + "" == group.output;
    } else {
      var init, last := keys[..|keys| - 1], keys[|keys| - 1];
      assert AllPrintTokens(keys) + rest == AllPrintTokens(init) + (PrintTokens(last) + rest);
      RunPrints(init, PrintTokens(last) + rest, g, group);
      RunPrint(last, rest, g, Group(group.output + OnePerLine(init), group.commands + |init|));
      assert group.output + OnePerLine(init) + (last + "\n") == group.output + OnePerLine(keys);
    }
  }

  /** The guest with its key directory made and closed off, before any key is written. */
  function Prepared(): Guest {
    Guest({SSH_DIR}, map[], map[SSH_DIR := "700"])
  }

  /** What the script is for. */
  function Installed(keys: seq<string>): Guest {
    Guest({ROOT_SSH}, map[AUTHORIZED_KEYS := OnePerLine(keys)], map[ROOT_SSH := "700", AUTHORIZED_KEYS := "600"])
  }

  lemma FirstLine(line: seq<string>, lines: seq<seq<string>>, rest: seq<Token>)
    ensures LinesTokens([line] + lines) + rest == LineTokens(line) + (LinesTokens(lines) + rest)
  {
    assert ([line] + lines)[1..] == lines;
  }

  lemma PrologueCommands()
    ensures RunSimple(Guest({}, map[], map[]), SET_LINE) == Some(Guest({}, map[], map[]))
    ensures RunSimple(Guest({}, map[], map[]), MKDIR_LINE) == Some(Guest({SSH_DIR}, map[], map[]))
    ensures RunSimple(Guest({SSH_DIR}, map[], map[]), CHMOD_DIR_LINE) == Some(Prepared())
  {
    assert |MKDIR_LINE| != |SET_LINE| && |CHMOD_DIR_LINE| != |SET_LINE|;
    assert CHMOD_DIR_LINE[0][0] != MKDIR_LINE[0][0];
    assert {} + {SSH_DIR} == {SSH_DIR};
  }

  lemma RunThreeLines(a: seq<string>, b: seq<string>, c: seq<string>, rest: seq<Token>,
                      g0: Guest, g1: Guest, g2: Guest, g3: Guest)
    requires a != [] && a[0] != "{" && RunSimple(g0, a) == Some(g1)
    requires b != [] && b[0] != "{" && RunSimple(g1, b) == Some(g2)
    requires c != [] && c[0] != "{" && RunSimple(g2, c) == Some(g3)
    ensures RunTokens(LineTokens(a) + (LineTokens(b) + (LineTokens(c) + rest)), g0, None) == RunTokens(rest, g3, None)
  {
    RunLine(a, LineTokens(b) + (LineTokens(c) + rest), g0, g1);
    RunLine(b, LineTokens(c) + rest, g1, g2);
    RunLine(c, rest, g2, g3);
  }

  lemma FourLines(a: seq<string>, b: seq<string>, c: seq<string>, d: seq<string>, rest: seq<Token>)
    ensures LinesTokens([a, b, c, d]) + rest
            == LineTokens(a) + (LineTokens(b) + (LineTokens(c) + (LineTokens(d) + rest)))
  {
    FirstLine(a, [b, c, d], rest);
    FirstLine(b, [c, d], rest);
    FirstLine(c, [d], rest);
    FirstLine(d, [], rest);
    assert [a] + [b, c, d] == [a, b, c, d] && [b] + [c, d] == [b, c, d] && [c] + [d] == [c, d] && [d] + [] == [d];
    assert LinesTokens([]) + rest == rest;
  }

  lemma AfterBlank(ts: seq<Token>, rest: seq<Token>)
    ensures [Newline] + ts + rest == [] + [Newline] + (ts + rest)
  {
  }

  lemma PrologueLineByLine(rest: seq<Token>)
    ensures PROLOGUE_TOKENS + rest
            == [] + [Newline] + (LineTokens(SET_LINE) + (LineTokens(MKDIR_LINE) + (LineTokens(CHMOD_DIR_LINE)
               + (LineTokens(OPEN_LINE) + rest))))
  {
    FourLines(SET_LINE, MKDIR_LINE, CHMOD_DIR_LINE, OPEN_LINE, rest);
    AfterBlank(LinesTokens(PROLOGUE_LINES), rest);
  }

  lemma RunBlankLine(rest: seq<Token>, g: Guest)
    ensures RunTokens([] + [Newline] + rest, g, None) == RunTokens(rest, g, None)
  {
    TakeLine([], rest);
  }

  lemma RunPrologue(rest: seq<Token>)
    ensures RunTokens(PROLOGUE_TOKENS + rest, Guest({}, map[], map[]), None)
            == RunTokens(rest, Prepared(), Some(Group("", 0)))
  {
    var bare, made := Guest({}, map[], map[]), Guest({SSH_DIR}, map[], map[]);
    var open := LineTokens(OPEN_LINE) + rest;
    PrologueLineByLine(rest);
    RunBlankLine(LineTokens(SET_LINE) + (LineTokens(MKDIR_LINE) + (LineTokens(CHMOD_DIR_LINE) + open)), bare);
    PrologueCommands();
    RunThreeLines(SET_LINE, MKDIR_LINE, CHMOD_DIR_LINE, open, bare, bare, made, Prepared());
    RunOpen(rest, Prepared());
  }

  lemma RunClose(rest: seq<Token>, g: Guest, group: Group)
    requires group.commands > 0 && SSH_DIR in g.dirs
    ensures RunTokens([Word("}", false), Redirect] + (LineTokens([KEYS_FILE]) + rest), g, Some(group))
            == RunTokens(rest, g.(files := g.files[KEYS_FILE := group.output]), None)
  {
    var line := [Word("}", false), Redirect, Word(KEYS_FILE, false)];
    assert [KEYS_FILE][1..] == [];
    assert LineTokens([KEYS_FILE]) == [Word(KEYS_FILE, false)] + [Newline];
    assert [Word("}", false), Redirect] + (LineTokens([KEYS_FILE]) + rest) == line + [Newline] + rest;
    KeysFileDir();
    TakeLine(line, rest);
  }

  lemma RunEpilogue(keys: seq<string>, commands: nat)
    requires commands > 0
    ensures RunTokens(EPILOGUE_TOKENS, Prepared(), Some(Group(OnePerLine(keys), commands))) == Some(Installed(keys))
  {
    var last := [CHMOD_FILE_LINE];
    var written := Guest({SSH_DIR}, map[KEYS_FILE := OnePerLine(keys)], map[SSH_DIR := "700"]);
    assert EPILOGUE_LINES == [[KEYS_FILE]] + last;
    FirstLine([KEYS_FILE], last, []);
    assert LinesTokens(EPILOGUE_LINES) + [] == LinesTokens(EPILOGUE_LINES);
    assert LinesTokens(last) + [] == LinesTokens(last);
    RunClose(LinesTokens(last), Prepared(), Group(OnePerLine(keys), commands));
    FirstLine(CHMOD_FILE_LINE, [], []);
    assert [CHMOD_FILE_LINE] + [] == last && LinesTokens([]) + [] == [];
    PathsAreRoots();
    RunLine(CHMOD_FILE_LINE, [], written, Installed(keys));
  }

  /** Running the script leaves exactly the keys, one per line, in a file and directory of the right modes. */
  lemma ScriptInstallsKeys(keys: seq<string>)
    requires keys != [] && forall i | 0 <= i < |keys| :: NUL !in keys[i]
    ensures RunScript(Script(keys)) == Some(Installed(keys))
  {
    ScriptTokens(keys);
    var bare := Guest({}, map[], map[]);
    assert PROLOGUE_TOKENS + AllPrintTokens(keys) + EPILOGUE_TOKENS
        == PROLOGUE_TOKENS + (AllPrintTokens(keys) + EPILOGUE_TOKENS);
    RunPrologue(AllPrintTokens(keys) + EPILOGUE_TOKENS);
    RunPrints(keys, EPILOGUE_TOKENS, Prepared(), Group("", 0));
    assert "" + OnePerLine(keys) == OnePerLine(keys);
    RunEpilogue(keys, |keys|);
  }

  /** The lines of a text file, each ended by a newline. */
  function FileLines(content: string): (lines: seq<string>)
    ensures forall i | 0 <= i < |lines| :: '\n' !in lines[i]
    decreases |content|
  {
    if content == "" then []
    else
      match SplitFirst(content, '\n')
      case None => [content]
      case Some((line, rest)) => [line] + FileLines(rest)
  }

  lemma {:induction false} OnePerLineFront(keys: seq<string>)
    requires keys != []
    ensures OnePerLine(keys) == keys[0] + ['\n'] + OnePerLine(keys[1..])
    decreases |keys|
  {
    var init, last := keys[..|keys| - 1], keys[|keys| - 1];
    if |keys| == 1 {
      assert init == [] && keys[1..] == [];
    } else {
      OnePerLineFront(init);
      assert keys[1..][..|keys[1..]| - 1] == init[1..];
    }
  }

  lemma FirstLineReadBack(line: string, rest: string)
    requires '\n' !in line
    ensures FileLines(line + ['\n'] + rest) == [line] + FileLines(rest)
  {
    SplitFirstOf(line, '\n', rest);
  }

  lemma {:induction false} LinesReadBack(keys: seq<string>)
    requires forall i | 0 <= i < |keys| :: '\n' !in keys[i]
    ensures FileLines(OnePerLine(keys)) == keys
    decreases |keys|
  {
    if keys != [] {
      OnePerLineFront(keys);
      FirstLineReadBack(keys[0], OnePerLine(keys[1..]));
      LinesReadBack(keys[1..]);
      assert keys == [keys[0]] + keys[1..];
    }
  }

  /** The keys the guest will accept after running the script. */
  function AuthorizedKeys(script: string): Option<seq<string>> {
    match RunScript(script)
    case None => None
    case Some(g) => if AUTHORIZED_KEYS in g.files then Some(FileLines(g.files[AUTHORIZED_KEYS])) else None
  }

  /** The guest accepts exactly the given keys if and only if none of them spans lines. */
  lemma KeysRoundTripExactly(keys: seq<string>)
    requires keys != [] && forall i | 0 <= i < |keys| :: NUL !in keys[i]
    ensures AuthorizedKeys(Script(keys)) == Some(keys) <==> forall i | 0 <= i < |keys| :: '\n' !in keys[i]
  {
    ScriptInstallsKeys(keys);
    if forall i | 0 <= i < |keys| :: '\n' !in keys[i] {
      LinesReadBack(keys);
    }
  }
}
