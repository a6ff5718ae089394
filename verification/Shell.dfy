/**
 * Splitting shell command lines (src/loader/cmd.rs:967-994 and 1019-1083, with the rejoining
 * of arguments at 511-517).
 */
module Shell {
  import opened Text
  import opened Wrappers

  /**
   * The quote state after `s`, starting from `quoted`; None if `s` has one of `stops`
   * outside quotes.
   */
  function Scan(s: string, quoted: bool, stops: set<char>): Option<bool> {
    if s == [] then Some(quoted)
    else
      match Scan(s[..|s| - 1], quoted, stops)
      case None => None
      case Some(q) =>
        var c := s[|s| - 1];
        if c == '"' then Some(!q) else if !q && c in stops then None else Some(q)
  }

  lemma ScanPush(s: string, c: char, quoted: bool, stops: set<char>)
    ensures Scan(s + [c], quoted, stops) ==
            match Scan(s, quoted, stops)
            case None => None
            case Some(q) => if c == '"' then Some(!q) else if !q && c in stops then None else Some(q)
  {
    assert (s + [c])[..|s|] == s;
  }

  lemma {:induction false} ScanConcat(s: string, t: string, quoted: bool, stops: set<char>)
    ensures Scan(s + t, quoted, stops) ==
            match Scan(s, quoted, stops)
            case None => None
            case Some(q) => Scan(t, q, stops)
  {
    if t == [] {
      assert s + t == s;
    } else {
      var init := t[..|t| - 1];
      ScanConcat(s, init, quoted, stops);
      assert s + t == s + init + [t[|t| - 1]];
      ScanPush(s + init, t[|t| - 1], quoted, stops);
    }
  }

  // ----- tokens -----

  /** The tokens found so far, the one being read, and whether a quote is open. */
  datatype Lexer = Lexer(tokens: seq<string>, current: Option<string>, inQuote: bool) {
    function Text(): string {
      if current.Some? then current.value else []
    }

    function Step(c: char): Lexer {
      if c == '"' then Lexer(tokens, Some(Text() + [c]), !inQuote)
      else if c == ' ' && !inQuote then
        if current.Some? then Lexer(tokens + [current.value], None, inQuote) else this
      else Lexer(tokens, Some(Text() + [c]), inQuote)
    }

    function Finish(): seq<string> {
      if current.Some? then tokens + [current.value] else tokens
    }
  }

  const SPACE: set<char> := {' '}

  function Lex(l: Lexer, line: string): Lexer {
    if line == [] then l else Lex(l, line[..|line| - 1]).Step(line[|line| - 1])
  }

  const NO_TOKENS := Lexer([], None, false)

  function Tokens(line: string): seq<string> {
    Lex(NO_TOKENS, line).Finish()
  }

  /** `tokenize`: the scan over the bytes, remembering where the current token started. */
  method Tokenize(line: string) returns (tokens: seq<string>)
    ensures tokens == Tokens(line)
  {
    tokens := [];
    var start: Option<nat> := None;
    var inQuote := false;
    var i := 0;
    while i < |line|
      invariant i <= |line| && (start.Some? ==> start.value <= i)
      invariant Lex(NO_TOKENS, line[..i]) == Lexer(tokens, if start.Some? then Some(line[start.value..i]) else None, inQuote)
    {
      assert line[..i + 1][..i] == line[..i];
      assert line[i..i + 1] == [] + [line[i]];
      assert start.Some? ==> line[start.value..i + 1] == line[start.value..i] + [line[i]];
      var b := line[i];
      if b == '"' {
        inQuote := !inQuote;
        if start.None? {
          start := Some(i);
        }
      } else if b == ' ' && !inQuote {
        if start.Some? {
          tokens := tokens + [line[start.value..i]];
          start := None;
        }
      } else if start.None? {
        start := Some(i);
      }
      i := i + 1;
    }
    assert line[..i] == line;
    if start.Some? {
      tokens := tokens + [line[start.value..]];
    }
  }

  /** A token: not empty, no space outside quotes, and quotes closed unless it is the last. */
  predicate Solid(token: string, last: bool) {
    token != [] && Scan(token, false, SPACE).Some? && (last || !Scan(token, false, SPACE).value)
  }

  predicate AllSolid(tokens: seq<string>) {
    forall k :: 0 <= k < |tokens| ==> Solid(tokens[k], k == |tokens| - 1)
  }

  predicate LexerOk(l: Lexer) {
    && (forall k :: 0 <= k < |l.tokens| ==> Solid(l.tokens[k], false))
    && (if l.current.Some? then l.current.value != [] && Scan(l.current.value, false, SPACE) == Some(l.inQuote) else !l.inQuote)
  }

  lemma {:induction false} LexKeepsOk(line: string)
    ensures LexerOk(Lex(NO_TOKENS, line))
  {
    hide Scan;
    if line == [] {
    } else {
      LexKeepsOk(line[..|line| - 1]);
      var l := Lex(NO_TOKENS, line[..|line| - 1]);
      ScanPush(l.Text(), line[|line| - 1], false, SPACE);
      ScanEmpty(SPACE);
    }
  }

  lemma ScanEmpty(stops: set<char>)
    ensures Scan([], false, stops) == Some(false)
  {
  }

  lemma TokensAreSolid(line: string)
    ensures AllSolid(Tokens(line))
  {
    LexKeepsOk(line);
  }

  /** The text of `line` without the spaces outside quotes. */
  function Kept(line: string): string {
    if line == [] then []
    else
      var init, c := line[..|line| - 1], line[|line| - 1];
      if c == ' ' && Scan(init, false, {}) == Some(false) then Kept(init) else Kept(init) + [c]
  }

  function Concat(parts: seq<string>): string {
    if parts == [] then [] else Concat(parts[..|parts| - 1]) + parts[|parts| - 1]
  }

  lemma ConcatPush(parts: seq<string>, part: string)
    ensures Concat(parts + [part]) == Concat(parts) + part
  {
    assert (parts + [part])[..|parts|] == parts;
  }

  lemma NothingKept()
    ensures Concat([]) == [] && Scan([], false, {}) == Some(false)
  {
  }

  /** Tokens lose nothing but the spaces outside quotes, and keep the order. */
  lemma {:induction false} TokensKeepTheText(line: string)
    ensures var l := Lex(NO_TOKENS, line);
            Concat(l.tokens) + l.Text() == Kept(line) && Scan(line, false, {}) == Some(l.inQuote)
    ensures Concat(Tokens(line)) == Kept(line)
  {
    hide Scan, Concat;
    var l := Lex(NO_TOKENS, line);
    if line == [] {
      NothingKept();
    } else {
      var init, c := line[..|line| - 1], line[|line| - 1];
      TokensKeepTheText(init);
      ScanPush(init, c, false, {});
      assert init + [c] == line;
      var before := Lex(NO_TOKENS, init);
      ConcatPush(before.tokens, before.Text());
      assert Concat(before.tokens) + (before.Text() + [c]) == Concat(before.tokens) + before.Text() + [c];
      assert Concat(before.tokens) + before.Text() + [] == Concat(before.tokens) + before.Text();
    }
    ConcatPush(l.tokens, l.Text());
    assert Concat(l.tokens) + [] == Concat(l.tokens);
  }

  // ----- rejoining -----

  /** `tokens.join(" ")`. */
  function Rejoin(tokens: seq<string>): string {
    if tokens == [] then []
    else if |tokens| == 1 then tokens[0]
    else Rejoin(tokens[..|tokens| - 1]) + " " + tokens[|tokens| - 1]
  }

  lemma {:induction false} LexConcat(l: Lexer, s: string, t: string)
    ensures Lex(l, s + t) == Lex(Lex(l, s), t)
  {
    if t == [] {
      assert s + t == s;
    } else {
      LexConcat(l, s, t[..|t| - 1]);
      assert (s + t)[..|s + t| - 1] == s + t[..|t| - 1];
    }
  }

  /** A text without spaces outside quotes is read as one token. */
  lemma {:induction false} LexSolid(tokens: seq<string>, t: string)
    requires Scan(t, false, SPACE).Some?
    ensures Lex(Lexer(tokens, None, false), t)
            == Lexer(tokens, if t == [] then None else Some(t), Scan(t, false, SPACE).value)
  {
    if t != [] {
      LexSolid(tokens, t[..|t| - 1]);
      assert t == t[..|t| - 1] + [t[|t| - 1]];
    }
  }

  lemma {:induction false} LexRejoined(tokens: seq<string>)
    requires tokens != [] && AllSolid(tokens)
    ensures var last := tokens[|tokens| - 1];
            Lex(NO_TOKENS, Rejoin(tokens)) == Lexer(tokens[..|tokens| - 1], Some(last), Scan(last, false, SPACE).value)
  {
    hide Scan;
    var init, last := tokens[..|tokens| - 1], tokens[|tokens| - 1];
    assert Solid(last, true);
    if |tokens| == 1 {
      LexSolid([], last);
    } else {
      assert Solid(tokens[|tokens| - 2], false);
      forall k | 0 <= k < |init|
        ensures Solid(init[k], k == |init| - 1)
      {
        assert Solid(tokens[k], false);
      }
      LexRejoined(init);
      LexConcat(NO_TOKENS, Rejoin(init) + " ", last);
      LexConcat(NO_TOKENS, Rejoin(init), " ");
      OneStep(Lex(NO_TOKENS, Rejoin(init)), ' ');
      assert init[..|init| - 1] + [init[|init| - 1]] == init;
      LexSolid(init, last);
    }
  }

  lemma OneStep(l: Lexer, c: char)
    ensures Lex(l, [c]) == l.Step(c)
  {
    assert [c][..0] == [];
    assert Lex(l, []) == l;
  }

  /**
   * Splitting is stable: the tokens of any line, or all of them from the `k`-th on, rejoined
   * with single spaces give the same tokens again, an unclosed quote included.
   */
  lemma RejoinedTokensAreStable(line: string, k: nat)
    requires k <= |Tokens(line)|
    ensures Tokens(Rejoin(Tokens(line)[k..])) == Tokens(line)[k..]
  {
    hide Scan;
    var rest := Tokens(line)[k..];
    TokensAreSolid(line);
    if rest != [] {
      LexRejoined(rest);
      assert rest[..|rest| - 1] + [rest[|rest| - 1]] == rest;
    }
  }

  // ----- pipelines and redirections -----

  const SPECIAL: set<char> := {'|', '<', '>'}

  /** `append` tells `>>` from `>`. */
  datatype Redirect = Redirect(file: string, append: bool)

  datatype Command = Command(segments: seq<string>, stdin: Option<string>, stdout: Option<Redirect>)

  datatype Parser = Parser(command: Command, current: string, inQuote: bool)

  const NOTHING_PARSED := Parser(Command([], None, None), [], false)

  function SkipSpaces(line: string, i: nat): (j: nat)
    requires i <= |line|
    ensures i <= j <= |line|
    decreases |line| - i
  {
    if i < |line| && line[i] == ' ' then SkipSpaces(line, i + 1) else i
  }

  function NameEnd(line: string, i: nat): (j: nat)
    requires i <= |line|
    ensures i <= j <= |line|
    decreases |line| - i
  {
    if i < |line| && line[i] != ' ' && line[i] !in SPECIAL then NameEnd(line, i + 1) else i
  }

  /** A redirection whose file name is looked for from `i` on. */
  function Redirected(p: Parser, line: string, i: nat, input: bool, append: bool): (r: (Parser, nat))
    requires i <= |line|
    ensures i <= r.1 <= |line| && r.0.current == p.current && r.0.inQuote == p.inQuote
    ensures r.0.command.segments == p.command.segments
  {
    var from := SkipSpaces(line, i);
    var to := NameEnd(line, from);
    if from == to then (p, to)
    else if input then (p.(command := p.command.(stdin := Some(line[from..to]))), to)
    else (p.(command := p.command.(stdout := Some(Redirect(line[from..to], append)))), to)
  }

  /** The parser and position after the character at `i` and what belongs to it. */
  function Turn(p: Parser, line: string, i: nat): (r: (Parser, nat))
    requires i < |line|
    ensures i < r.1 <= |line|
  {
    var c := line[i];
    if c == '"' then (p.(current := p.current + [c], inQuote := !p.inQuote), i + 1)
    else if p.inQuote then (p.(current := p.current + [c]), i + 1)
    else if c == '|' then (p.(command := p.command.(segments := p.command.segments + [Trim(p.current)]), current := []), i + 1)
    else if c == '>' then
      var append := i + 1 < |line| && line[i + 1] == '>';
      Redirected(p, line, if append then i + 2 else i + 1, false, append)
    else if c == '<' then Redirected(p, line, i + 1, true, false)
    else (p.(current := p.current + [c]), i + 1)
  }

  function ParseFrom(p: Parser, line: string, i: nat): Parser
    requires i <= |line|
    decreases |line| - i
  {
    if i == |line| then p
    else
      var (next, j) := Turn(p, line, i);
      ParseFrom(next, line, j)
  }

  function Closed(p: Parser): Command {
    var last := Trim(p.current);
    if last != [] || p.command.segments == [] then p.command.(segments := p.command.segments + [last]) else p.command
  }

  function Parsed(line: string): Command {
    Closed(ParseFrom(NOTHING_PARSED, line, 0))
  }

  /** The two inner loops of a redirection: skip spaces, then take the file name. */
  method ReadName(line: string, from: nat) returns (name: string, i: nat)
    requires from <= |line|
    ensures var start := SkipSpaces(line, from); i == NameEnd(line, start) && name == line[start..i]
  {
    i := from;
    while i < |line| && line[i] == ' '
      invariant from <= i <= |line| && SkipSpaces(line, from) == SkipSpaces(line, i)
    {
      i := i + 1;
    }
    ghost var start := i;
    name := [];
    while i < |line| && line[i] != ' ' && line[i] !in SPECIAL
      invariant start <= i <= |line| && name == line[start..i] && NameEnd(line, start) == NameEnd(line, i)
    {
      name := name + [line[i]];
      i := i + 1;
    }
  }

  /** `parse_command`. */
  method ParseCommand(line: string) returns (command: Command)
    ensures command == Parsed(line)
  {
    hide Trim, SkipSpaces, NameEnd, ParseFrom;
    var segments: seq<string> := [];
    var stdin: Option<string> := None;
    var stdout: Option<Redirect> := None;
    var current: string := [];
    var inQuote := false;
    var i := 0;
    while i < |line|
      invariant i <= |line|
      invariant ParseFrom(NOTHING_PARSED, line, 0) == ParseFrom(Parser(Command(segments, stdin, stdout), current, inQuote), line, i)
    {
      ParseStep(Parser(Command(segments, stdin, stdout), current, inQuote), line, i);
      var c := line[i];
      if c == '"' {
        inQuote := !inQuote;
        current := current + [c];
        i := i + 1;
      } else if inQuote {
        current := current + [c];
        i := i + 1;
      } else if c == '|' {
        segments := segments + [Trim(current)];
        current := [];
        i := i + 1;
      } else if c == '>' {
        var append := i + 1 < |line| && line[i + 1] == '>';
        var name;
        name, i := ReadName(line, if append then i + 2 else i + 1);
        if name != [] {
          stdout := Some(Redirect(name, append));
        }
      } else if c == '<' {
        var name;
        name, i := ReadName(line, i + 1);
        if name != [] {
          stdin := Some(name);
        }
      } else {
        current := current + [c];
        i := i + 1;
      }
    }
    ParseEnd(Parser(Command(segments, stdin, stdout), current, inQuote), line);
    var last := Trim(current);
    if last != [] || segments == [] {
      segments := segments + [last];
    }
    command := Command(segments, stdin, stdout);
  }

  lemma ParseStep(p: Parser, line: string, i: nat)
    requires i < |line|
    ensures ParseFrom(p, line, i) == ParseFrom(Turn(p, line, i).0, line, Turn(p, line, i).1)
  {
  }

  lemma ParseEnd(p: Parser, line: string)
    ensures ParseFrom(p, line, |line|) == p
  {
  }

  // ----- segments parse to themselves -----

  /** A segment: no pipe or redirection outside quotes, and nothing to trim. */
  predicate Plain(s: string) {
    Scan(s, false, SPECIAL).Some? && Trim(s) == s
  }

  lemma {:induction false} ScanSuffix(s: string, n: nat)
    requires n <= |s| && (forall k :: 0 <= k < n ==> White(s[k])) && Scan(s, false, SPECIAL).Some?
    ensures Scan(s[n..], false, SPECIAL) == Scan(s, false, SPECIAL)
  {
    ScanConcat(s[..n], s[n..], false, SPECIAL);
    assert s[..n] + s[n..] == s;
    ScanWhite(s[..n]);
  }

  lemma {:induction false} ScanWhite(s: string)
    requires forall k :: 0 <= k < |s| ==> White(s[k])
    ensures Scan(s, false, SPECIAL) == Some(false)
  {
    if s != [] {
      ScanWhite(s[..|s| - 1]);
    }
  }

  lemma {:induction false} ScanPrefix(s: string, n: nat)
    requires n <= |s| && Scan(s, false, SPECIAL).Some?
    ensures Scan(s[..n], false, SPECIAL).Some?
  {
    ScanConcat(s[..n], s[n..], false, SPECIAL);
    assert s[..n] + s[n..] == s;
  }

  lemma TrimmedIsPlain(s: string)
    requires Scan(s, false, SPECIAL).Some?
    ensures Plain(Trim(s))
  {
    hide Scan;
    TrimStartIs(s);
    var t := TrimStart(s);
    ScanSuffix(s, |s| - |t|);
    TrimEndIs(t);
    var r := TrimEnd(t);
    ScanPrefix(t, |r|);
    assert r != [] ==> r[0] == t[0] && r[|r| - 1] == t[|r| - 1];
  }

  /** Segments found are plain, and the one being read has only what quotes allow. */
  predicate ParserOk(p: Parser) {
    && (forall k :: 0 <= k < |p.command.segments| ==> Plain(p.command.segments[k]))
    && Scan(p.current, false, SPECIAL) == Some(p.inQuote)
  }

  lemma TurnKeepsOk(p: Parser, line: string, i: nat)
    requires ParserOk(p) && i < |line|
    ensures ParserOk(Turn(p, line, i).0)
  {
    hide Scan, Plain, Trim;
    ScanPush(p.current, line[i], false, SPECIAL);
    ScanEmpty(SPECIAL);
    TrimmedIsPlain(p.current);
  }

  lemma {:induction false} ParseKeepsOk(p: Parser, line: string, i: nat)
    requires ParserOk(p) && i <= |line|
    ensures ParserOk(ParseFrom(p, line, i))
    decreases |line| - i
  {
    hide ParserOk, Turn;
    if i < |line| {
      TurnKeepsOk(p, line, i);
      ParseKeepsOk(Turn(p, line, i).0, line, Turn(p, line, i).1);
    }
  }

  /** Text without specials outside quotes is taken over as it is. */
  lemma {:induction false} ParsePlain(s: string, i: nat)
    requires i <= |s| && Scan(s, false, SPECIAL).Some?
    ensures Scan(s[..i], false, SPECIAL).Some?
    ensures ParseFrom(Parser(Command([], None, None), s[..i], Scan(s[..i], false, SPECIAL).value), s, i).current == s
    ensures ParseFrom(Parser(Command([], None, None), s[..i], Scan(s[..i], false, SPECIAL).value), s, i).command == Command([], None, None)
    decreases |s| - i
  {
    ScanPrefix(s, i);
    if i < |s| {
      ParsePlain(s, i + 1);
      assert s[..i + 1] == s[..i] + [s[i]];
      ScanPush(s[..i], s[i], false, SPECIAL);
    } else {
      assert s[..i] == s;
    }
  }

  /** Parsing a segment again gives that one segment, and no redirection. */
  lemma SegmentsAreStable(line: string, k: nat)
    requires k < |Parsed(line).segments|
    ensures Parsed(Parsed(line).segments[k]) == Command([Parsed(line).segments[k]], None, None)
  {
    hide Scan, Trim, ParseFrom, Turn;
    ScanEmpty(SPECIAL);
    ParseKeepsOk(NOTHING_PARSED, line, 0);
    var p := ParseFrom(NOTHING_PARSED, line, 0);
    TrimmedIsPlain(p.current);
    var s := Parsed(line).segments[k];
    assert Plain(s);
    ParsePlain(s, 0);
    assert s[..0] == [];
  }
}
