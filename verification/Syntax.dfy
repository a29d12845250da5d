/** The laws of the configuration syntax: what every spelling of a token means, what separates
    tokens, and how lines make up a file. Characters are named here one by one. */
module Syntax {
  import opened Lexer

  // ---------------------------------------------------------------- words

  /** A token after more characters. */
  function Run(w: Word, s: string): Word
    decreases |s|
  {
    if s == [] then w else Run(Absorb(w, s[0]), s[1..])
  }

  /** None of the characters ends the token. */
  predicate Within(w: Word, s: string)
    decreases |s|
  {
    s == [] || (!Ends(w, s[0]) && Within(Absorb(w, s[0]), s[1..]))
  }

  lemma {:induction false} RunConcat(w: Word, s: string, t: string)
    ensures Run(w, s + t) == Run(Run(w, s), t)
    ensures Within(w, s + t) <==> Within(w, s) && Within(Run(w, s), t)
    decreases |s|
  {
    if s == [] {
      assert s + t == t;
    } else {
      assert (s + t)[1..] == s[1..] + t;
      RunConcat(Absorb(w, s[0]), s[1..], t);
    }
  }

  lemma {:induction false} LexWithin(w: Word, s: string, rest: string)
    requires Within(w, s)
    ensures Lex(s + rest, Some(w)) == Lex(rest, Some(Run(w, s)))
    ensures Dangling(s + rest, Some(w)) == Dangling(rest, Some(Run(w, s)))
    decreases |s|
  {
    if s == [] {
      assert s + rest == rest;
    } else {
      assert (s + rest)[1..] == s[1..] + rest;
      LexWithin(Absorb(w, s[0]), s[1..], rest);
    }
  }

  /** A character that stands for something else than itself in these quotes. */
  predicate Special(quote: Quote, c: char) {
    || (c == '\\' && !quote.Single?)
    || (c == '\'' && !quote.Double?)
    || (c == '"' && !quote.Single?)
  }

  predicate Literal(quote: Quote, s: string) {
    forall i :: 0 <= i < |s| ==> !Special(quote, s[i])
  }

  lemma {:induction false} LiteralRuns(w: Word, s: string)
    requires !w.escaped && Literal(w.quote, s)
    ensures Run(w, s) == Word(w.quote, false, w.sofar + s)
    ensures !w.quote.Bare? ==> Within(w, s)
    decreases |s|
  {
    if s == [] {
      assert w.sofar + s == w.sofar;
    } else {
      LiteralRuns(Absorb(w, s[0]), s[1..]);
      assert w.sofar + [s[0]] + s[1..] == w.sofar + s;
    }
  }

  lemma {:induction false} RunGrows(w: Word, s: string)
    ensures |Run(w, s).sofar| <= |w.sofar| + |s|
    decreases |s|
  {
    if s != [] {
      RunGrows(Absorb(w, s[0]), s[1..]);
    }
  }

  /** If every character counts, every character is literal. */
  lemma {:induction false} NoLoss(w: Word, s: string)
    requires !w.escaped && |Run(w, s).sofar| == |w.sofar| + |s|
    ensures Literal(w.quote, s)
    decreases |s|
  {
    if s != [] {
      RunGrows(Absorb(w, s[0]), s[1..]);
      NoLoss(Absorb(w, s[0]), s[1..]);
    }
  }

  lemma {:induction false} EscapeRuns(w: Word, s: string)
    requires !w.escaped && !w.quote.Single?
    ensures Run(w, Escape(s)) == Word(w.quote, false, w.sofar + s) && Within(w, Escape(s))
    decreases |s|
  {
    if s == [] {
      assert w.sofar + s == w.sofar;
    } else {
      var text := Escape(s);
      var w1, w2 := Absorb(w, '\\'), Word(w.quote, false, w.sofar + [s[0]]);
      assert text[0] == '\\' && text[1..][0] == s[0] && text[1..][1..] == Escape(s[1..]);
      assert Absorb(w1, s[0]) == w2;
      EscapeRuns(w2, s[1..]);
      assert w.sofar + [s[0]] + s[1..] == w.sofar + s;
    }
  }

  // ---------------------------------------------------------------- spellings

  /** A piece of a token as it is written: as it is, in single quotes, in double quotes, or
      with a backslash before every character, outside or inside double quotes. */
  datatype Segment =
    | Plain(text: string)
    | InSingle(text: string)
    | InDouble(text: string)
    | Escaped(text: string)
    | EscapedInDouble(text: string)

  function Show(seg: Segment): string {
    match seg
    case Plain(s) => s
    case InSingle(s) => "'" + (s + "'")
    case InDouble(s) => "\"" + (s + "\"")
    case Escaped(s) => Escape(s)
    case EscapedInDouble(s) => "\"" + (Escape(s) + "\"")
  }

  /** Which texts can be written in that way. */
  predicate Writable(seg: Segment) {
    match seg
    case Plain(s) =>
      forall i :: 0 <= i < |s| ==>
        && s[i] != ' ' && s[i] != '\t' && s[i] != '\n' && s[i] != '{' && s[i] != '}' && s[i] != '='
        && s[i] != '\'' && s[i] != '"' && s[i] != '\\'
    case InSingle(s) => forall i :: 0 <= i < |s| ==> s[i] != '\''
    case InDouble(s) => forall i :: 0 <= i < |s| ==> s[i] != '"' && s[i] != '\\'
    case _ => true
  }

  /** The piece adds its text to the token and nothing else. */
  predicate Adds(seg: Segment, sofar: string) {
    var w := Word(Bare, false, sofar);
    Within(w, Show(seg)) && Run(w, Show(seg)) == Word(Bare, false, sofar + seg.text)
  }

  lemma {:induction false} PlainWithin(w: Word, s: string)
    requires w.quote.Bare? && !w.escaped && Literal(Bare, s)
    ensures Within(w, s) <==>
              forall i :: 0 <= i < |s| ==>
                s[i] != ' ' && s[i] != '\t' && s[i] != '\n' && s[i] != '{' && s[i] != '}' && s[i] != '='
    decreases |s|
  {
    if s != [] {
      PlainWithin(Absorb(w, s[0]), s[1..]);
      assert forall i :: 0 <= i < |s| ==> s[i] == if i == 0 then s[0] else s[1..][i - 1];
    }
  }

  lemma PlainAdds(s: string, sofar: string)
    ensures Adds(Plain(s), sofar) <==> Writable(Plain(s))
  {
    var w := Word(Bare, false, sofar);
    if Adds(Plain(s), sofar) {
      NoLoss(w, s);
      PlainWithin(w, s);
    } else if Writable(Plain(s)) {
      LiteralRuns(w, s);
      PlainWithin(w, s);
    }
  }

  /** Quotes around a literal text. */
  lemma QuotedRuns(q: char, s: string, sofar: string)
    requires q == '\'' || q == '"'
    requires Literal(if q == '\'' then Single else Double, s)
    ensures var w := Word(Bare, false, sofar);
            Within(w, [q] + (s + [q])) && Run(w, [q] + (s + [q])) == Word(Bare, false, sofar + s)
  {
    var w := Word(Bare, false, sofar);
    var quote := if q == '\'' then Single else Double;
    var w1, w2 := Word(quote, false, sofar), Word(quote, false, sofar + s);
    assert ([q] + (s + [q]))[1..] == s + [q] && Absorb(w, q) == w1;
    LiteralRuns(w1, s);
    RunConcat(w1, s, [q]);
    assert Run(w2, [q]) == Word(Bare, false, sofar + s) && Within(w2, [q]);
  }

  lemma LastLost(w: Word, s: string, q: char)
    requires !w.escaped && Special(w.quote, q)
    ensures |Run(w, s + [q]).sofar| < |w.sofar| + |s| + 1
  {
    assert (s + [q])[|s|] == q;
    RunGrows(w, s + [q]);
    if |Run(w, s + [q]).sofar| == |w.sofar| + |s + [q]| {
      NoLoss(w, s + [q]);
    }
  }

  /** After a special character in quotes the closing quote is lost. */
  lemma QuotedFails(q: char, a: string, c: char, b: string, sofar: string)
    requires q == '\'' || q == '"'
    requires var quote := if q == '\'' then Single else Double; Literal(quote, a) && Special(quote, c)
    ensures var s := a + ([c] + b);
            Run(Word(Bare, false, sofar), [q] + (s + [q])) != Word(Bare, false, sofar + s)
  {
    var quote := if q == '\'' then Single else Double;
    var s := a + ([c] + b);
    var w1, w2 := Word(quote, false, sofar), Word(quote, false, sofar + a);
    var text := [q] + (s + [q]);
    assert text[1..] == a + ([c] + (b + [q])) && Absorb(Word(Bare, false, sofar), q) == w1;
    RunConcat(w1, a, [c] + (b + [q]));
    LiteralRuns(w1, a);
    assert ([c] + (b + [q]))[1..] == b + [q];
    var w3 := Absorb(w2, c);
    assert Run(Word(Bare, false, sofar), text) == Run(w3, b + [q]);
    assert |sofar + s| == |sofar| + |a| + 1 + |b|;
    if c == q {
      LastLost(w3, b, q);
    } else if b == [] {
      assert b + [q] == [q] && Run(w3, [q]) == Absorb(w3, q);
    } else {
      assert (b + [q])[0] == b[0] && (b + [q])[1..] == b[1..] + [q];
      LastLost(Absorb(w3, b[0]), b[1..], q);
    }
  }

  /** The first special character of a text. */
  lemma {:induction false} FirstSpecial(quote: Quote, s: string) returns (n: nat)
    requires !Literal(quote, s)
    ensures n < |s| && Literal(quote, s[..n]) && Special(quote, s[n])
    decreases |s|
  {
    if Special(quote, s[0]) {
      n := 0;
    } else {
      if Literal(quote, s[1..]) {
        assert forall i :: 0 <= i < |s| ==> s[i] == if i == 0 then s[0] else s[1..][i - 1];
      }
      var m := FirstSpecial(quote, s[1..]);
      n := m + 1;
      assert forall i :: 0 <= i < n ==> s[..n][i] == if i == 0 then s[0] else s[1..][..m][i - 1];
    }
  }

  lemma QuotedAdds(q: char, s: string, sofar: string)
    requires q == '\'' || q == '"'
    ensures var w, text := Word(Bare, false, sofar), [q] + (s + [q]);
            (Within(w, text) && Run(w, text) == Word(Bare, false, sofar + s)) <==>
              Literal(if q == '\'' then Single else Double, s)
  {
    var quote := if q == '\'' then Single else Double;
    if Literal(quote, s) {
      QuotedRuns(q, s, sofar);
    } else {
      var n := FirstSpecial(quote, s);
      QuotedFails(q, s[..n], s[n], s[n + 1..], sofar);
      assert s == s[..n] + ([s[n]] + s[n + 1..]);
    }
  }

  /** A piece of a token means its text exactly if it can be written in that way. */
  lemma SegmentAdds(seg: Segment, sofar: string)
    ensures Adds(seg, sofar) <==> Writable(seg)
  {
    match seg
    case Plain(s) => PlainAdds(s, sofar);
    case InSingle(s) => QuotedAdds('\'', s, sofar);
    case InDouble(s) => QuotedAdds('"', s, sofar);
    case Escaped(s) => EscapeRuns(Word(Bare, false, sofar), s);
    case EscapedInDouble(s) =>
      var text := Escape(s);
      var w1, w2 := Word(Double, false, sofar), Word(Double, false, sofar + s);
      assert (['"'] + (text + ['"']))[1..] == text + ['"'] && Absorb(Word(Bare, false, sofar), '"') == w1;
      EscapeRuns(w1, s);
      RunConcat(w1, text, ['"']);
      assert Run(w2, ['"']) == Word(Bare, false, sofar + s) && Within(w2, ['"']);
  }

  // ---------------------------------------------------------------- tokens

  function Spelling(segs: seq<Segment>): string {
    if segs == [] then "" else Show(segs[0]) + Spelling(segs[1..])
  }

  function Meaning(segs: seq<Segment>): string {
    if segs == [] then "" else segs[0].text + Meaning(segs[1..])
  }

  lemma Join(sofar: string, seg: Segment, more: string, meaning: string)
    requires Adds(seg, sofar)
    requires var w := Word(Bare, false, sofar + seg.text);
             Within(w, more) && Run(w, more) == Word(Bare, false, sofar + seg.text + meaning)
    ensures var w := Word(Bare, false, sofar);
            Within(w, Show(seg) + more) && Run(w, Show(seg) + more) == Word(Bare, false, sofar + (seg.text + meaning))
  {
    RunConcat(Word(Bare, false, sofar), Show(seg), more);
    assert sofar + seg.text + meaning == sofar + (seg.text + meaning);
  }

  lemma {:induction false} SpellingRuns(segs: seq<Segment>, sofar: string)
    requires forall i :: 0 <= i < |segs| ==> Writable(segs[i])
    ensures var w := Word(Bare, false, sofar);
            Within(w, Spelling(segs)) && Run(w, Spelling(segs)) == Word(Bare, false, sofar + Meaning(segs))
    decreases |segs|
  {
    if segs == [] {
      assert sofar + Meaning(segs) == sofar;
    } else {
      SegmentAdds(segs[0], sofar);
      SpellingRuns(segs[1..], sofar + segs[0].text);
      Join(sofar, segs[0], Spelling(segs[1..]), Meaning(segs[1..]));
    }
  }

  /** What may follow a token. */
  predicate Stops(rest: string) {
    || rest == []
    || rest[0] == ' ' || rest[0] == '\t' || rest[0] == '\n'
    || rest[0] == '{' || rest[0] == '}' || rest[0] == '='
  }

  /** A token spelled in pieces, however they are quoted, is read as what it means. A `#` that
      is not its first character is part of it, and so are quoted braces and equals signs. */
  lemma TokenLexes(segs: seq<Segment>, rest: string)
    requires forall i :: 0 <= i < |segs| ==> Writable(segs[i])
    requires Spelling(segs) != [] && Spelling(segs)[0] != '#' && Stops(rest)
    ensures Lex(Spelling(segs) + rest, None) == [Meaning(segs)] + Lex(rest, None)
    ensures Dangling(Spelling(segs) + rest, None) == Dangling(rest, None)
  {
    var text := Spelling(segs);
    SpellingRuns(segs, "");
    assert "" + Meaning(segs) == Meaning(segs);
    LexWithin(FRESH, text, rest);
    assert (text + rest)[0] == text[0];
  }

  // ---------------------------------------------------------------- lines

  /** A token, or a brace or equals sign that is a token of its own. */
  datatype Item = Token(segs: seq<Segment>) | Mark(c: char)

  /** An item and the white space before it. */
  datatype Piece = Piece(space: string, item: Item)

  predicate Blank(s: string) {
    forall i :: 0 <= i < |s| ==> s[i] == ' ' || s[i] == '\t' || s[i] == '\n'
  }

  function ShowItem(item: Item): string {
    if item.Token? then Spelling(item.segs) else [item.c]
  }

  function ItemMeaning(item: Item): string {
    if item.Token? then Meaning(item.segs) else [item.c]
  }

  function ShowLine(pieces: seq<Piece>, tail: string): string {
    if pieces == [] then tail
    else pieces[0].space + (ShowItem(pieces[0].item) + ShowLine(pieces[1..], tail))
  }

  function LineMeaning(pieces: seq<Piece>): seq<string> {
    if pieces == [] then [] else [ItemMeaning(pieces[0].item)] + LineMeaning(pieces[1..])
  }

  /** Tokens are written properly, none begins with `#`, and something stops each of them. */
  predicate WellWritten(pieces: seq<Piece>, tail: string) {
    pieces == [] ||
    (&& Blank(pieces[0].space) && WellWritten(pieces[1..], tail)
     && match pieces[0].item
        case Token(segs) =>
          && (forall i :: 0 <= i < |segs| ==> Writable(segs[i]))
          && Spelling(segs) != [] && Spelling(segs)[0] != '#' && Stops(ShowLine(pieces[1..], tail))
        case Mark(c) => c == '{' || c == '}' || c == '=')
  }

  /** White space means nothing. */
  lemma {:induction false} BlankLexes(s: string, rest: string)
    requires Blank(s)
    ensures Lex(s + rest, None) == Lex(rest, None)
    ensures Dangling(s + rest, None) == Dangling(rest, None)
    decreases |s|
  {
    if s == [] {
      assert s + rest == rest;
    } else {
      assert (s + rest)[1..] == s[1..] + rest;
      BlankLexes(s[1..], rest);
    }
  }

  /** What comes after the last item: white space and perhaps a comment, which is anything from
      `#` to the end of the line. */
  predicate IsTail(tail: string, space: string) {
    Blank(space) && space <= tail && (tail == space || tail[|space|] == '#')
  }

  lemma TailLexes(tail: string, space: string)
    requires IsTail(tail, space)
    ensures Lex(tail, None) == [] && !Dangling(tail, None)
  {
    BlankLexes(space, tail[|space|..]);
    assert tail == space + tail[|space|..];
  }

  lemma MarkLexes(c: char, rest: string)
    requires c == '{' || c == '}' || c == '='
    ensures Lex([c] + rest, None) == [[c]] + Lex(rest, None)
    ensures Dangling([c] + rest, None) == Dangling(rest, None)
  {
    assert ([c] + rest)[1..] == rest;
  }

  /** A line of tokens in any spelling, of braces and equals signs, with any white space and a
      comment at the end, is read as these tokens. */
  lemma {:induction false} LineLexes(pieces: seq<Piece>, tail: string, space: string)
    requires WellWritten(pieces, tail) && IsTail(tail, space)
    ensures Lex(ShowLine(pieces, tail), None) == LineMeaning(pieces)
    ensures !Dangling(ShowLine(pieces, tail), None)
    decreases |pieces|
  {
    if pieces == [] {
      TailLexes(tail, space);
    } else {
      var rest := ShowLine(pieces[1..], tail);
      LineLexes(pieces[1..], tail, space);
      BlankLexes(pieces[0].space, ShowItem(pieces[0].item) + rest);
      match pieces[0].item
      case Token(segs) => TokenLexes(segs, rest);
      case Mark(c) => MarkLexes(c, rest);
    }
  }

  // ---------------------------------------------------------------- files

  function Lines(lines: seq<string>): string {
    if lines == [] then [] else (lines[0] + "\n") + Lines(lines[1..])
  }

  function LinesMeaning(lines: seq<string>): seq<string> {
    if lines == [] then [] else Lex(lines[0] + "\n", None) + LinesMeaning(lines[1..])
  }

  /** A file of lines of less than 999 characters is read line by line. */
  lemma {:induction false} FileLexes(lines: seq<string>)
    requires forall i :: 0 <= i < |lines| ==> |lines[i]| < 999 && Printable(lines[i])
    ensures Tokens(Lines(lines)) == LinesMeaning(lines)
    ensures Clean(Lines(lines)) <==> forall i :: 0 <= i < |lines| ==> !Dangling(lines[i] + "\n", None)
    decreases |lines|
  {
    if lines != [] {
      var line, rest := lines[0] + "\n", Lines(lines[1..]);
      NoBreak(lines[0], rest, MAX_LINE_LEN - 1);
      assert (line + rest)[..|line|] == line && (line + rest)[|line|..] == rest;
      FileLexes(lines[1..]);
      assert forall i :: 0 <= i < |lines| ==> lines[i] == if i == 0 then lines[0] else lines[1..][i - 1];
    }
  }

  /** fgets cuts a longer line after 999 characters, in the middle of a token or not. */
  lemma LongLine(text: string)
    requires |text| >= 999 && Printable(text[..999])
    ensures FirstLine(text) == text[..999] && AfterFirstLine(text) == text[999..]
  {
    NoNewline(text, 999);
    NoNul(text[..999]);
  }

  /** strlen stops at a NUL. */
  lemma {:induction false} NulCuts(s: string, rest: string)
    requires forall i :: 0 <= i < |s| ==> s[i] != '\0'
    ensures UpToNul(s + ("\0" + rest)) == s
    decreases |s|
  {
    if s == [] {
      assert (s + ("\0" + rest))[0] == '\0';
    } else {
      assert (s + ("\0" + rest))[1..] == s[1..] + ("\0" + rest);
      NulCuts(s[1..], rest);
    }
  }

  lemma {:induction false} NoNewline(text: string, room: nat)
    requires room <= |text| && forall i :: 0 <= i < room ==> text[i] != '\n'
    ensures LineLength(text, room) == room
    decreases room
  {
    if room > 0 {
      NoNewline(text[1..], room - 1);
    }
  }

  lemma {:induction false} NoNul(s: string)
    requires Printable(s)
    ensures UpToNul(s) == s
    decreases |s|
  {
    if s != [] {
      NoNul(s[1..]);
    }
  }
}
