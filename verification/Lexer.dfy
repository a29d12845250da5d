/** What the configuration file says: the documented syntax as a one-pass lexer, one
    character at a time. Whitespace separates tokens; `#` at the start of a token begins a
    comment; braces and equals signs are tokens of their own; single and double quotes and
    backslashes quote. Nothing is carried over from one line to the next. */
module Lexer {

  const MAX_LINE_LEN := 1000

  predicate IsSpace(c: char) {
    c == ' ' || c == '\t' || c == '\n'
  }

  predicate IsTokenChar(c: char) {
    c == '{' || c == '}' || c == '='
  }

  datatype Quote = Bare | Single | Double

  /** A token under way: the quotes it is in, whether a backslash was just read, and the
      characters so far. */
  datatype Word = Word(quote: Quote, escaped: bool, sofar: string)

  const FRESH := Word(Bare, false, "")

  /** One more character of a token. */
  function Absorb(w: Word, c: char): Word {
    if w.escaped then Word(w.quote, false, w.sofar + [c])
    else if c == '\\' && !w.quote.Single? then w.(escaped := true)
    else if c == '\'' && w.quote.Bare? then w.(quote := Single)
    else if c == '\'' && w.quote.Single? then w.(quote := Bare)
    else if c == '"' && w.quote.Bare? then w.(quote := Double)
    else if c == '"' && w.quote.Double? then w.(quote := Bare)
    else w.(sofar := w.sofar + [c])
  }

  /** Does c end the token before it? */
  predicate Ends(w: Word, c: char) {
    !w.escaped && w.quote.Bare? && (IsSpace(c) || IsTokenChar(c))
  }

  datatype Option<+T> = None | Some(value: T)

  /** The tokens of the rest of a line, `word` being under way if there is one. */
  function Lex(line: string, word: Option<Word>): seq<string>
    decreases |line|, word.Some?
  {
    match word
    case None =>
      if line == [] || line[0] == '#' then []
      else if IsSpace(line[0]) then Lex(line[1..], None)
      else if IsTokenChar(line[0]) then [[line[0]]] + Lex(line[1..], None)
      else Lex(line[1..], Some(Absorb(FRESH, line[0])))
    case Some(w) =>
      if line == [] then [w.sofar]
      else if Ends(w, line[0]) then [w.sofar] + Lex(line, None)
      else Lex(line[1..], Some(Absorb(w, line[0])))
  }

  /** The line stops just after an escaping backslash. */
  predicate Dangling(line: string, word: Option<Word>)
    decreases |line|, word.Some?
  {
    match word
    case None =>
      if line == [] || line[0] == '#' then false
      else if IsSpace(line[0]) || IsTokenChar(line[0]) then Dangling(line[1..], None)
      else Dangling(line[1..], Some(Absorb(FRESH, line[0])))
    case Some(w) =>
      if line == [] then w.escaped
      else if Ends(w, line[0]) then Dangling(line, None)
      else Dangling(line[1..], Some(Absorb(w, line[0])))
  }

  // ---------------------------------------------------------------- lines

  /** How many characters fgets takes: through the next newline, or the room there is. */
  function LineLength(text: string, room: nat): (n: nat)
    ensures n <= |text| && n <= room
    ensures text != [] && room > 0 ==> n > 0
  {
    if text == [] || room == 0 then 0
    else if text[0] == '\n' then 1
    else 1 + LineLength(text[1..], room - 1)
  }

  /** strlen: what comes before a NUL. */
  function UpToNul(s: string): string {
    if s == [] || s[0] == '\0' then [] else [s[0]] + UpToNul(s[1..])
  }

  function FirstLine(text: string): string {
    UpToNul(text[..LineLength(text, MAX_LINE_LEN - 1)])
  }

  function AfterFirstLine(text: string): (rest: string)
    ensures text != [] ==> |rest| < |text|
  {
    text[LineLength(text, MAX_LINE_LEN - 1)..]
  }

  /** The tokens of a file. */
  function Tokens(text: string): seq<string>
    decreases |text|
  {
    if text == [] then [] else Lex(FirstLine(text), None) + Tokens(AfterFirstLine(text))
  }

  /** No line of the file ends in a dangling backslash. */
  predicate Clean(text: string)
    decreases |text|
  {
    text == [] || (!Dangling(FirstLine(text), None) && Clean(AfterFirstLine(text)))
  }

  // ---------------------------------------------------------------- printing

  function Escape(token: string): string {
    if token == [] then [] else ['\\', token[0]] + Escape(token[1..])
  }

  function PrintToken(token: string): string {
    if token == [] then "\"\"" else Escape(token)
  }

  function PrintLine(tokens: seq<string>): string {
    if tokens == [] then "\n" else PrintToken(tokens[0]) + " " + PrintLine(tokens[1..])
  }

  function Print(lines: seq<seq<string>>): string {
    if lines == [] then [] else PrintLine(lines[0]) + Print(lines[1..])
  }

  function Flatten(lines: seq<seq<string>>): seq<string> {
    if lines == [] then [] else lines[0] + Flatten(lines[1..])
  }

  predicate Printable(token: string) {
    forall i :: 0 <= i < |token| ==> token[i] != '\n' && token[i] != '\0'
  }

  predicate PrintableLine(tokens: seq<string>) {
    |PrintLine(tokens)| <= MAX_LINE_LEN - 1 && forall i :: 0 <= i < |tokens| ==> Printable(tokens[i])
  }

  lemma {:induction false} LexEscaped(token: string, w: Word, rest: string)
    requires w.quote.Bare? && !w.escaped
    ensures Lex(Escape(token) + " " + rest, Some(w)) == [w.sofar + token] + Lex(rest, None)
    ensures Dangling(Escape(token) + " " + rest, Some(w)) == Dangling(rest, None)
    decreases |token|
  {
    var line := Escape(token) + " " + rest;
    if token == [] {
      assert line[1..] == rest;
      assert w.sofar + token == w.sofar;
    } else {
      var w' := w.(sofar := w.sofar + [token[0]]);
      assert line[0] == '\\' && line[1..][0] == token[0];
      assert line[1..][1..] == Escape(token[1..]) + " " + rest;
      LexEscaped(token[1..], w', rest);
      assert w'.sofar + token[1..] == w.sofar + token;
    }
  }

  lemma LexEmptyToken(rest: string)
    ensures Lex(['"'] + (['"'] + ([' '] + rest)), None) == [""] + Lex(rest, None)
    ensures Dangling(['"'] + (['"'] + ([' '] + rest)), None) == Dangling(rest, None)
  {
    var space := [' '] + rest;
    var one := ['"'] + space;
    var two := ['"'] + one;
    assert two[1..] == one && one[1..] == space && space[1..] == rest;
    var quoted := Word(Double, false, "");
    assert Absorb(FRESH, '"') == quoted && Absorb(quoted, '"') == FRESH;
    assert Lex(two, None) == Lex(one, Some(quoted));
    assert Lex(one, Some(quoted)) == Lex(space, Some(FRESH));
    assert Lex(space, Some(FRESH)) == [""] + Lex(space, None);
    assert Lex(space, None) == Lex(rest, None);
    assert Dangling(two, None) == Dangling(one, Some(quoted));
    assert Dangling(one, Some(quoted)) == Dangling(space, Some(FRESH));
    assert Dangling(space, Some(FRESH)) == Dangling(space, None);
    assert Dangling(space, None) == Dangling(rest, None);
  }

  lemma LexPrinted(token: string, rest: string)
    ensures Lex(PrintToken(token) + " " + rest, None) == [token] + Lex(rest, None)
    ensures Dangling(PrintToken(token) + " " + rest, None) == Dangling(rest, None)
  {
    var line := PrintToken(token) + " " + rest;
    if token == [] {
      LexEmptyToken(rest);
      assert line == ['"'] + (['"'] + ([' '] + rest));
    } else {
      LexEscaped(token, FRESH, rest);
      assert FRESH.sofar + token == token;
      assert line[0] == '\\';
      assert Lex(line, None) == Lex(line, Some(FRESH));
      assert Dangling(line, None) == Dangling(line, Some(FRESH));
    }
  }

  lemma {:induction false} LexPrintLine(tokens: seq<string>)
    ensures Lex(PrintLine(tokens), None) == tokens && !Dangling(PrintLine(tokens), None)
    decreases |tokens|
  {
    if tokens != [] {
      LexPrinted(tokens[0], PrintLine(tokens[1..]));
      LexPrintLine(tokens[1..]);
    }
  }

  /** A printed line is one line of the file. */
  lemma {:induction false} NoBreak(s: string, rest: string, room: nat)
    requires forall i :: 0 <= i < |s| ==> s[i] != '\n' && s[i] != '\0'
    requires |s| < room
    ensures LineLength(s + "\n" + rest, room) == |s| + 1
    ensures UpToNul(s + "\n") == s + "\n"
    decreases |s|
  {
    var line := s + "\n" + rest;
    if s == [] {
      assert line[0] == '\n';
      assert UpToNul("\n"[1..]) == [];
    } else {
      assert line[1..] == s[1..] + "\n" + rest;
      assert (s + "\n")[1..] == s[1..] + "\n";
      NoBreak(s[1..], rest, room - 1);
    }
  }

  lemma {:induction false} EscapePlain(token: string)
    requires Printable(token)
    ensures Printable(Escape(token))
    decreases |token|
  {
    if token != [] {
      EscapePlain(token[1..]);
    }
  }

  /** A printed line without its newline. */
  function Body(tokens: seq<string>): string {
    if tokens == [] then "" else PrintToken(tokens[0]) + " " + Body(tokens[1..])
  }

  lemma {:induction false} BodyPlain(tokens: seq<string>)
    requires forall i :: 0 <= i < |tokens| ==> Printable(tokens[i])
    ensures PrintLine(tokens) == Body(tokens) + "\n" && Printable(Body(tokens))
    decreases |tokens|
  {
    if tokens != [] {
      EscapePlain(tokens[0]);
      BodyPlain(tokens[1..]);
    }
  }

  /** Round trip: any lists of tokens free of newline and NUL, printed with every character
      escaped, one list a line, come back when the file is read. */
  lemma {:induction false} RoundTrip(lines: seq<seq<string>>)
    requires forall i :: 0 <= i < |lines| ==> PrintableLine(lines[i])
    ensures Tokens(Print(lines)) == Flatten(lines) && Clean(Print(lines))
    decreases |lines|
  {
    if lines != [] {
      var line, rest := PrintLine(lines[0]), Print(lines[1..]);
      BodyPlain(lines[0]);
      NoBreak(Body(lines[0]), rest, MAX_LINE_LEN - 1);
      assert (line + rest)[..|line|] == line && (line + rest)[|line|..] == rest;
      LexPrintLine(lines[0]);
      RoundTrip(lines[1..]);
    }
  }
}
