/** The configuration reader of src/conf.c: the resuming two-pass get_token, and the
    recogniser of `disallow method ppdev` on top of it. */
module Conf {
  import opened Lexer

  /** A token after the characters s. */
  function AbsorbAll(s: string): Word {
    if s == [] then FRESH else Absorb(AbsorbAll(s[..|s| - 1]), s[|s| - 1])
  }

  lemma AbsorbNext(line: string, at: nat, end: nat)
    requires at <= end < |line|
    ensures AbsorbAll(line[at..end + 1]) == Absorb(AbsorbAll(line[at..end]), line[end])
  {
    assert line[at..end + 1][..end - at] == line[at..end];
  }

  /** line[at..end) is the beginning of the token at `at`. */
  ghost predicate Under(line: string, at: nat, end: nat) {
    && at < end <= |line|
    && Lex(line[at..], None) == Lex(line[end..], Some(AbsorbAll(line[at..end])))
    && Dangling(line[at..], None) == Dangling(line[end..], Some(AbsorbAll(line[at..end])))
  }

  /** line[at..end) is a token, and the rest of the line is lexed afresh. */
  ghost predicate IsToken(line: string, at: nat, end: nat) {
    && at < end <= |line|
    && !AbsorbAll(line[at..end]).escaped
    && Lex(line[at..], None) == [AbsorbAll(line[at..end]).sofar] + Lex(line[end..], None)
    && Dangling(line[at..], None) == Dangling(line[end..], None)
  }

  predicate Begins(c: char) {
    !IsSpace(c) && c != '#'
  }

  lemma UnderFirst(line: string, at: nat)
    requires at < |line| && Begins(line[at]) && !IsTokenChar(line[at])
    ensures Under(line, at, at + 1)
  {
    assert line[at..][1..] == line[at + 1..];
    AbsorbNext(line, at, at);
  }

  lemma UnderNext(line: string, at: nat, end: nat)
    requires Under(line, at, end) && end < |line| && !Ends(AbsorbAll(line[at..end]), line[end])
    ensures Under(line, at, end + 1)
  {
    assert line[end..][1..] == line[end + 1..];
    AbsorbNext(line, at, end);
  }

  lemma UnderEnds(line: string, at: nat, end: nat)
    requires Under(line, at, end) && !AbsorbAll(line[at..end]).escaped
    requires end == |line| || Ends(AbsorbAll(line[at..end]), line[end])
    ensures IsToken(line, at, end)
  {
    if end == |line| {
      assert line[end..] == [];
    }
  }

  lemma TokenCharAlone(line: string, at: nat)
    requires at < |line| && IsTokenChar(line[at])
    ensures IsToken(line, at, at + 1)
  {
    var c := line[at];
    assert line[at..][1..] == line[at + 1..];
    AbsorbNext(line, at, at);
    assert AbsorbAll(line[at..at]) == FRESH;
    assert Absorb(FRESH, c).sofar == [c];
  }

  /** The state of the first pass: no character yet, or a token under way in these quotes. */
  ghost predicate Scanning(line: string, at: nat, end: nat, quotes: Quote) {
    && at < |line| && Begins(line[at]) && at <= end <= |line|
    && (if end == at then quotes.Bare? else Under(line, at, end))
    && !AbsorbAll(line[at..end]).escaped && AbsorbAll(line[at..end]).quote == quotes
  }

  /** The quotes a token is in after one more character, according to the lexer. */
  function QuoteAfter(quotes: Quote, ch: char): Quote {
    Absorb(Word(quotes, false, ""), ch).quote
  }

  /** The quote tests that both passes make, against the lexer: a character that is not an
      escaping backslash is a quote character, and changes the quotes, or is part of the token. */
  method Requote(quotes: Quote, ch: char) returns (q: Quote)
    ensures q == QuoteAfter(quotes, ch)
    ensures ch == '\\' && !quotes.Single? ==> q == quotes
    ensures !(ch == '\\' && !quotes.Single?) ==>
              Absorb(Word(quotes, false, ""), ch) == Word(q, false, if q == quotes then [ch] else "")
  {
    q := quotes;
    if ch == '\'' {
      if quotes.Bare? {
        return Single;
      }
      if quotes.Single? {
        q := Bare;
      }
    }
    if ch == '"' {
      if quotes.Bare? {
        return Double;
      }
      if quotes.Double? {
        q := Bare;
      }
    }
  }

  /** A character that neither escapes nor ends the token. */
  predicate IsPlain(quotes: Quote, ch: char) {
    !(ch == '\\' && !quotes.Single?) && !(quotes.Bare? && (IsSpace(ch) || IsTokenChar(ch)))
  }

  /** The token at `at` runs to the end of the line, where a backslash escapes nothing. */
  ghost predicate CutOff(line: string, at: nat) {
    at < |line| && Dangling(line[at..], None) && Lex(line[at..], None) == [AbsorbAll(line[at..]).sofar]
  }

  /** A dangling backslash belongs to a token. */
  lemma {:induction false} DanglingToken(line: string, word: Option<Word>)
    ensures Dangling(line, word) ==> Lex(line, word) != []
    decreases |line|, word.Some?
  {
    match word
    case None =>
      if line != [] && IsSpace(line[0]) {
        DanglingToken(line[1..], None);
      } else if line != [] {
        DanglingToken(line[1..], Some(Absorb(FRESH, line[0])));
      }
    case Some(w) =>
      if line != [] && !Ends(w, line[0]) {
        DanglingToken(line[1..], Some(Absorb(w, line[0])));
      }
  }

  lemma ScanPlain(line: string, at: nat, end: nat, quotes: Quote)
    requires Scanning(line, at, end, quotes) && end < |line| && IsPlain(quotes, line[end])
    ensures Scanning(line, at, end + 1, QuoteAfter(quotes, line[end]))
  {
    if end == at { UnderFirst(line, at); } else { UnderNext(line, at, end); }
    AbsorbNext(line, at, end);
  }

  lemma ScanEscape(line: string, at: nat, end: nat, quotes: Quote)
    requires Scanning(line, at, end, quotes) && end < |line| && line[end] == '\\' && !quotes.Single?
    ensures end + 1 < |line| ==> Scanning(line, at, end + 2, quotes)
    ensures end + 1 == |line| ==> CutOff(line, at)
  {
    if end == at { UnderFirst(line, at); } else { UnderNext(line, at, end); }
    AbsorbNext(line, at, end);
    if end + 1 < |line| {
      UnderNext(line, at, end + 1);
      AbsorbNext(line, at, end + 1);
    } else {
      assert line[end + 1..] == [] && line[at..end + 1] == line[at..];
    }
  }

  lemma ScanEnd(line: string, at: nat, end: nat, quotes: Quote)
    requires Scanning(line, at, end, quotes)
    requires end == |line| || (quotes.Bare? && (IsSpace(line[end]) || IsTokenChar(line[end])))
    ensures IsToken(line, at, if end == at then at + 1 else end) && !CutOff(line, at)
  {
    if end == at {
      TokenCharAlone(line, at);
      DanglingToken(line[at + 1..], None);
    } else {
      UnderEnds(line, at, end);
      DanglingToken(line[end..], None);
    }
  }

  /** The first pass: find the end of the token. It steps past the end of the line exactly
      when a dangling backslash of this token ends the line. */
  method FindEnd(line: string, at: nat) returns (end: nat)
    requires at < |line| && Begins(line[at])
    ensures end <= |line| ==> IsToken(line, at, end)
    ensures end > |line| <==> CutOff(line, at)
    ensures at < end <= |line| + 1
  {
    var quotes := Bare;
    end := at;
    while end < |line|
      invariant if end <= |line| then Scanning(line, at, end, quotes)
                else end == |line| + 1 && CutOff(line, at)
    {
      var ch := line[end];
      if ch == '\\' && !quotes.Single? {
        ScanEscape(line, at, end, quotes);
        end := end + 2;
        continue;
      }
      if IsPlain(quotes, ch) { ScanPlain(line, at, end, quotes); } else { ScanEnd(line, at, end, quotes); }
      quotes := Requote(quotes, ch);
      if quotes.Bare? && IsSpace(ch) {
        return;
      }
      if quotes.Bare? && IsTokenChar(ch) {
        if end == at {
          end := end + 1;
        }
        return;
      }
      end := end + 1;
    }
    if end == |line| {
      ScanEnd(line, at, end, quotes);
    }
  }

  /** On the shortest dangling line, a single backslash, the first pass ends at 2. */
  method Overrun() returns (line: string, end: nat)
    ensures line == "\\" && Dangling(line, None) && end == |line| + 1
  {
    line := "\\";
    end := FindEnd(line, 0);
  }

  /** The state of the second pass. */
  ghost predicate Copying(line: string, start: nat, at: nat, quotes: Quote, token: string) {
    && start <= at <= |line| && |token| <= at - start
    && AbsorbAll(line[start..at]) == Word(quotes, false, token)
  }

  lemma CopyPlain(line: string, start: nat, at: nat, quotes: Quote, token: string)
    requires Copying(line, start, at, quotes, token) && at < |line|
    requires !(line[at] == '\\' && !quotes.Single?)
    ensures var q := QuoteAfter(quotes, line[at]);
            Copying(line, start, at + 1, q, if q == quotes then token + [line[at]] else token)
  {
    AbsorbNext(line, start, at);
  }

  lemma CopyEscape(line: string, start: nat, at: nat, quotes: Quote, token: string)
    requires Copying(line, start, at, quotes, token) && at < |line| && line[at] == '\\' && !quotes.Single?
    ensures AbsorbAll(line[start..at + 1]).sofar == token
    ensures at + 1 < |line| ==> Copying(line, start, at + 2, quotes, token + [line[at + 1]])
  {
    AbsorbNext(line, start, at);
    if at + 1 < |line| {
      AbsorbNext(line, start, at + 1);
    }
  }

  /** The second pass: copy line[start..end) without its quotes and backslashes. The copy and
      its NUL fit in end - start + 1 characters. A backslash that escapes nothing is dropped. */
  method CopyToken(line: string, start: nat, end: nat) returns (token: string)
    requires start <= end <= |line|
    ensures token == AbsorbAll(line[start..end]).sofar && |token| <= end - start
  {
    var at, quotes := start, Bare;
    token := "";
    while at < end
      invariant start <= at <= end && |token| <= at - start
      invariant AbsorbAll(line[start..at]).sofar == token
      invariant at < end ==> Copying(line, start, at, quotes, token)
    {
      var ch := line[at];
      if ch == '\\' && !quotes.Single? {
        CopyEscape(line, start, at, quotes, token);
        if at < end - 1 {
          at := at + 1;
          token := token + [line[at]];
        }
        at := at + 1;
        continue;
      }
      CopyPlain(line, start, at, quotes, token);
      at := at + 1;
      var before := quotes;
      quotes := Requote(quotes, ch);
      if quotes == before {
        token := token + [ch];
      }
    }
  }

  lemma SpaceSkipped(line: string, at: nat)
    requires at < |line| && IsSpace(line[at])
    ensures Lex(line[at..], None) == Lex(line[at + 1..], None)
    ensures Dangling(line[at..], None) == Dangling(line[at + 1..], None)
  {
    assert line[at..][1..] == line[at + 1..];
  }

  method SkipSpace(line: string, at: nat) returns (to: nat)
    requires at <= |line|
    ensures at <= to <= |line| && (to < |line| ==> !IsSpace(line[to]))
    ensures Lex(line[to..], None) == Lex(line[at..], None)
    ensures Dangling(line[to..], None) == Dangling(line[at..], None)
  {
    to := at;
    while to < |line| && IsSpace(line[to])
      invariant at <= to <= |line|
      invariant Lex(line[to..], None) == Lex(line[at..], None)
      invariant Dangling(line[to..], None) == Dangling(line[at..], None)
    {
      SpaceSkipped(line, to);
      to := to + 1;
    }
  }

  /** A token in hand, and what follows it. */
  function Pending(token: Option<string>, rest: seq<string>): seq<string> {
    if token.None? then [] else [token.value] + rest
  }

  /** Skip space and comments and take one token of a line, if there is one. On a token that
      is cut off the position ends up past the end of the line; as a C string the token is
      still the one the lexer has. */
  method TakeToken(line: string, at: nat) returns (token: Option<string>, to: nat)
    requires at <= |line|
    ensures at <= to
    ensures to <= |line| ==> Dangling(line[to..], None) == Dangling(line[at..], None)
    ensures to > |line| ==> to == |line| + 1 && token.Some? && Dangling(line[at..], None)
    ensures match token
            case None => Lex(line[at..], None) == [] && to == |line|
            case Some(t) => at < to && Lex(line[at..], None) == [t] + if to <= |line| then Lex(line[to..], None) else []
  {
    to := SkipSpace(line, at);
    if to == |line| || line[to] == '#' {
      assert line[|line|..] == [];
      return None, |line|;
    }
    var end := FindEnd(line, to);
    assert line[to..|line|] == line[to..];
    var t := CopyToken(line, to, if end <= |line| then end else |line|);
    return Some(t), end;
  }

  /** The static state of get_token, and the part of the file that is still unread. */
  class Scanner {
    var file: string
    var hasLine: bool
    var line: string
    var at: nat

    constructor (text: string)
      ensures Valid() && Remaining() == Tokens(text) && (Sound() <==> Clean(text))
    {
      file, hasLine, line, at := text, false, "", 0;
    }

    /** The position is on the line. What get_token does from another state is undefined. */
    ghost predicate Valid()
      reads this
    {
      if hasLine then at <= |line| else line == "" && at == 0
    }

    /** No dangling backslash is to come. */
    ghost predicate Sound()
      requires Valid()
      reads this
    {
      Clean(file) && (hasLine ==> !Dangling(line[at..], None))
    }

    /** The tokens that are still to come. */
    ghost function Remaining(): seq<string>
      requires Valid()
      reads this
    {
      (if hasLine then Lex(line[at..], None) else []) + Tokens(file)
    }

    /** fgets and strlen. */
    method ReadLine()
      requires Valid() && !hasLine && file != []
      modifies this
      ensures Valid() && hasLine && |file| < |old(file)|
      ensures Remaining() == old(Remaining()) && (Sound() <==> old(Sound()))
    {
      line := FirstLine(file);
      file := AfterFirstLine(file);
      hasLine, at := true, 0;
      assert line[0..] == line;
    }

    /** Have a line to work on: give up one that is used up, and read one if there is none. */
    method Refill() returns (more: bool)
      requires Valid()
      modifies this
      ensures Valid() && Remaining() == old(Remaining()) && (Sound() <==> old(Sound()))
      ensures if more then hasLine else Remaining() == [] && Sound()
      ensures more ==> |file| < |old(file)| || (unchanged(this) && at < |line|)
    {
      if hasLine && at == |line| {
        assert line[at..] == [];
        hasLine, line, at := false, "", 0;
      }
      if !hasLine {
        if file == [] {
          return false;
        }
        ReadLine();
      }
      more := true;
    }

    /** One round of get_token: a token, or the line is used up. */
    method TakeFromLine() returns (token: Option<string>)
      requires Valid() && hasLine
      modifies this`at
      ensures old(at) <= at && (token.None? ==> at == |line|)
      ensures Valid() ==> (Sound() <==> old(Sound()))
      ensures !Valid() ==> token.Some? && !old(Sound())
      ensures old(Remaining()) == (if token.Some? then [token.value] else []) +
                                  (if Valid() then Remaining() else Tokens(file))
    {
      var to;
      token, to := TakeToken(line, at);
      at := to;
      assert line[|line|..] == [];
    }

    /** The next token of the file, resuming in the middle of the line. The call that meets a
        dangling backslash is `lost`: it still returns the right token, but it leaves the
        position past the end of the line. */
    method GetToken() returns (r: Option<string>, lost: bool)
      requires Valid()
      modifies this
      ensures lost <==> !Valid()
      ensures if lost then r.Some? && !old(Sound()) else (Sound() <==> old(Sound()))
      ensures match r
              case None => old(Remaining()) == [] && Remaining() == [] && Sound()
              case Some(t) => old(Remaining()) == [t] + if lost then Tokens(file) else Remaining()
    {
      while true
        invariant Valid() && Remaining() == old(Remaining()) && (Sound() <==> old(Sound()))
        decreases |file|, if hasLine then |line| - at else 0
      {
        var more := Refill();
        if !more {
          return None, false;
        }
        var token := TakeFromLine();
        if token.Some? {
          return token, at > |line|;
        }
      }
    }
  }

  lemma TakeHead(all: seq<string>, tokens: seq<string>, rest: seq<string>)
    requires all == tokens + rest && rest != []
    ensures all == tokens + [rest[0]] + rest[1..] && tokens + [rest[0]] <= all
  {
  }

  /** All the calls for a file: they return the tokens of the file one by one, and one of them
      steps past the end of its line exactly if some line ends in a dangling backslash. */
  method ReadAll(text: string) returns (tokens: seq<string>, lost: bool)
    ensures lost <==> !Clean(text)
    ensures if lost then tokens <= Tokens(text) else tokens == Tokens(text)
  {
    var s := new Scanner(text);
    ghost var all := Tokens(text);
    ghost var rest := all;
    tokens := [];
    var token;
    token, lost := s.GetToken();
    while token.Some?
      invariant fresh(s) && (lost <==> !s.Valid())
      invariant if lost then token.Some? && !Clean(text) else (s.Sound() <==> Clean(text))
      invariant !lost && token.None? ==> rest == [] && s.Sound()
      invariant token.Some? ==> rest != [] && rest[0] == token.value && (!lost ==> rest[1..] == s.Remaining())
      invariant all == tokens + rest
      decreases |rest|
    {
      TakeHead(all, tokens, rest);
      tokens := tokens + [token.value];
      if lost {
        return;
      }
      rest := rest[1..];
      token, lost := s.GetToken();
    }
  }

  // ---------------------------------------------------------------- recogniser

  /** The instruction stands at position i. */
  predicate InstructionAt(tokens: seq<string>, i: int) {
    0 <= i <= |tokens| - 3 && tokens[i] == "disallow" && tokens[i + 1] == "method" && tokens[i + 2] == "ppdev"
  }

  /** The instruction occurs somewhere in the tokens. */
  ghost predicate Contains(tokens: seq<string>) {
    exists i :: InstructionAt(tokens, i)
  }

  lemma ContainsLater(t: string, rest: seq<string>)
    requires !InstructionAt([t] + rest, 0)
    ensures Contains([t] + rest) <==> Contains(rest)
  {
    var all := [t] + rest;
    assert forall i :: 0 <= i < |rest| ==> all[i + 1] == rest[i];
    if Contains(rest) {
      var i :| InstructionAt(rest, i);
      assert InstructionAt(all, i + 1);
    }
    if Contains(all) {
      var i :| InstructionAt(all, i);
      assert InstructionAt(rest, i - 1);
    }
  }

  class Config {
    var disallow_ppdev: bool

    /** After the word `disallow`. The token handed back is looked at again; nothing of the
        instruction is lost by that. A lost scanner is not asked again. */
    method Disallow(s: Scanner) returns (token: Option<string>, lost: bool)
      requires s.Valid()
      modifies this, s
      ensures lost <==> !s.Valid()
      ensures if lost then !old(s.Sound()) else (s.Sound() <==> old(s.Sound()))
      ensures !lost ==>
                && |Pending(token, s.Remaining())| <= |old(s.Remaining())|
                && (token.None? ==> s.Remaining() == [] && s.Sound())
                && (disallow_ppdev || Contains(Pending(token, s.Remaining())) <==>
                      old(disallow_ppdev) || Contains(["disallow"] + old(s.Remaining())))
    {
      ghost var r0 := s.Remaining();
      token, lost := s.GetToken();
      if lost {
        return;
      }
      ghost var r1 := s.Remaining();
      if token.None? || token.value != "method" {
        ContainsLater("disallow", r0);
        return;
      }
      token, lost := s.GetToken();
      if token.None? || token.value != "ppdev" {
        if !lost {
          ContainsLater("disallow", r0);
          assert "method"[0] != "disallow"[0];
          ContainsLater("method", r1);
        }
        return;
      }
      disallow_ppdev := true;
      assert !lost ==> InstructionAt(["disallow"] + r0, 0);
      if !lost {
        token, lost := s.GetToken();
      }
    }

    /** Read a file: unless a dangling backslash ends one of its lines, ppdev ends up disallowed
        exactly if it was before or the three words occur in a row, wherever that is. */
    method TryReadConfigFile(text: string) returns (lost: bool)
      modifies this
      ensures lost <==> !Clean(text)
      ensures !lost ==> (disallow_ppdev <==> old(disallow_ppdev) || Contains(Tokens(text)))
    {
      var s := new Scanner(text);
      var token;
      token, lost := s.GetToken();
      while token.Some? && !lost
        invariant fresh(s) && (lost <==> !s.Valid())
        invariant if lost then !Clean(text) else (s.Sound() <==> Clean(text))
        invariant !lost && token.None? ==> s.Remaining() == [] && s.Sound()
        invariant !lost ==> (disallow_ppdev || Contains(Pending(token, s.Remaining())) <==>
                               old(disallow_ppdev) || Contains(Tokens(text)))
        decreases if lost then 0 else 1 + |Pending(token, s.Remaining())|
      {
        ghost var rest := s.Remaining();
        if token.value == "disallow" {
          token, lost := Disallow(s);
        } else {
          ContainsLater(token.value, rest);
          token, lost := s.GetToken();
        }
      }
    }
  }
}
