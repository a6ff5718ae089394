/**
 * Command lines put together from their parts come apart again (src/loader/cmd.rs:967-994 and
 * 1019-1083): tokens between any number of spaces, and pipelines with redirections anywhere.
 */
module ShellCommands {
  import opened Text
  import opened Wrappers
  import opened Shell

  // ----- tokens -----

  /** Each token behind its gap, the first number of spaces given; later gaps are not empty. */
  function Spaced(tokens: seq<string>, gaps: seq<nat>): string
    requires |gaps| == |tokens|
  {
    if tokens == [] then []
    else Spaced(tokens[..|tokens| - 1], gaps[..|tokens| - 1]) + Spaces(gaps[|tokens| - 1]) + tokens[|tokens| - 1]
  }

  predicate GapsFit(gaps: seq<nat>) {
    forall k :: 1 <= k < |gaps| ==> gaps[k] >= 1
  }

  lemma {:induction false} LexSpaces(l: Lexer, n: nat)
    requires !l.inQuote
    ensures Lex(l, Spaces(n)) == if n > 0 && l.current.Some? then Lexer(l.tokens + [l.current.value], None, false) else l
  {
    if n > 0 {
      LexSpaces(l, n - 1);
      assert Spaces(n)[..n - 1] == Spaces(n - 1);
    }
  }

  lemma {:induction false} LexSpaced(tokens: seq<string>, gaps: seq<nat>)
    requires tokens != [] && AllSolid(tokens) && |gaps| == |tokens| && GapsFit(gaps)
    ensures var last := tokens[|tokens| - 1];
            Lex(NO_TOKENS, Spaced(tokens, gaps)) == Lexer(tokens[..|tokens| - 1], Some(last), Scan(last, false, SPACE).value)
  {
    hide Scan;
    var n := |tokens| - 1;
    var init, last := tokens[..n], tokens[n];
    var before := Spaced(init, gaps[..n]);
    assert Solid(last, true);
    LexConcat(NO_TOKENS, before + Spaces(gaps[n]), last);
    LexConcat(NO_TOKENS, before, Spaces(gaps[n]));
    if n == 0 {
      LexSpaces(NO_TOKENS, gaps[0]);
      assert before == [];
      assert Lex(NO_TOKENS, []) == NO_TOKENS;
    } else {
      assert Solid(tokens[n - 1], false);
      forall k | 0 <= k < n
        ensures Solid(init[k], k == n - 1)
      {
        assert Solid(tokens[k], false);
      }
      LexSpaced(init, gaps[..n]);
      LexSpaces(Lex(NO_TOKENS, before), gaps[n]);
      assert init[..n - 1] + [init[n - 1]] == init;
    }
    LexSolid(init, last);
  }

  /** Splitting gives back any tokens, with any spaces around them; an open quote takes the spaces behind it. */
  lemma SpacedTokensComeBack(tokens: seq<string>, gaps: seq<nat>, trailing: nat)
    requires AllSolid(tokens) && |gaps| == |tokens| && GapsFit(gaps)
    requires tokens != [] && trailing > 0 ==> Scan(tokens[|tokens| - 1], false, SPACE) == Some(false)
    ensures Tokens(Spaced(tokens, gaps) + Spaces(trailing)) == tokens
  {
    hide Spaced, Lex, Scan;
    LexConcat(NO_TOKENS, Spaced(tokens, gaps), Spaces(trailing));
    if tokens == [] {
      NoneSpaced();
      LexSpaces(NO_TOKENS, trailing);
    } else {
      LexSpaced(tokens, gaps);
      EndsTokens(Lex(NO_TOKENS, Spaced(tokens, gaps)), trailing);
      assert tokens[..|tokens| - 1] + [tokens[|tokens| - 1]] == tokens;
    }
  }

  lemma NoneSpaced()
    ensures Spaced([], []) == [] && Lex(NO_TOKENS, []) == NO_TOKENS
  {
  }

  lemma EndsTokens(l: Lexer, n: nat)
    requires n > 0 ==> !l.inQuote
    ensures Lex(l, Spaces(n)).Finish() == l.Finish()
  {
    if n > 0 {
      LexSpaces(l, n);
    } else {
      assert Spaces(0) == [];
    }
  }

  // ----- pipelines -----

  /** A part of a command line: text, a pipe, or a redirection with some spaces before its file. */
  datatype Piece = Words(text: string) | Pipe | From(gap: nat, file: string) | To(append: bool, gap: nat, file: string)

  function SignOf(append: bool): (sign: string)
    ensures |sign| == if append then 2 else 1
  {
    if append then ">>" else ">"
  }

  function Show1(p: Piece): string {
    match p
    case Words(text) => text
    case Pipe => "|"
    case From(gap, file) => "<" + (Spaces(gap) + file)
    case To(append, gap, file) => SignOf(append) + (Spaces(gap) + file)
  }

  function Show(pieces: seq<Piece>): string {
    if pieces == [] then [] else Show(pieces[..|pieces| - 1]) + Show1(pieces[|pieces| - 1])
  }

  /** A file name, which may be missing: no spaces and no specials. */
  predicate FileName(file: string) {
    forall k :: 0 <= k < |file| ==> file[k] != ' ' && file[k] !in SPECIAL
  }

  predicate PieceFits(p: Piece) {
    match p
    case Words(text) => Scan(text, false, SPECIAL) == Some(false)
    case Pipe => true
    case From(_, file) => FileName(file)
    case To(_, _, file) => FileName(file)
  }

  predicate IsRedirection(p: Piece) {
    p.From? || p.To?
  }

  /**
   * Text behind a file name starts with a space. Behind a redirection without a file comes
   * another special, and not one that turns `>` into `>>`.
   */
  predicate MayFollow(p: Piece, next: Piece) {
    IsRedirection(p) ==>
      && (next.Words? ==> p.file != [] && next.text != [] && next.text[0] == ' ')
      && (p.To? && next.To? ==> p.append || p.file != [] || p.gap > 0)
  }

  predicate PiecesFit(pieces: seq<Piece>) {
    && (forall k :: 0 <= k < |pieces| ==> PieceFits(pieces[k]))
    && (forall k :: 1 <= k < |pieces| ==> MayFollow(pieces[k - 1], pieces[k]))
  }

  /** The text since the last pipe, redirections left out. */
  function Current(pieces: seq<Piece>): string {
    if pieces == [] then []
    else
      var init := Current(pieces[..|pieces| - 1]);
      match pieces[|pieces| - 1]
      case Words(text) => init + text
      case Pipe => []
      case _ => init
  }

  /** The segments that pipes have ended, trimmed. */
  function Ended(pieces: seq<Piece>): seq<string> {
    if pieces == [] then []
    else if pieces[|pieces| - 1].Pipe? then Ended(pieces[..|pieces| - 1]) + [Trim(Current(pieces[..|pieces| - 1]))]
    else Ended(pieces[..|pieces| - 1])
  }

  function LastFrom(pieces: seq<Piece>): Option<string> {
    if pieces == [] then None
    else if pieces[|pieces| - 1].From? && pieces[|pieces| - 1].file != [] then Some(pieces[|pieces| - 1].file)
    else LastFrom(pieces[..|pieces| - 1])
  }

  function LastTo(pieces: seq<Piece>): Option<Redirect> {
    if pieces == [] then None
    else if pieces[|pieces| - 1].To? && pieces[|pieces| - 1].file != [] then Some(Redirect(pieces[|pieces| - 1].file, pieces[|pieces| - 1].append))
    else LastTo(pieces[..|pieces| - 1])
  }

  /** What a command line means: its segments, the last input file, the last output file and its kind. */
  function Meaning(pieces: seq<Piece>): Command {
    var last := Trim(Current(pieces));
    Command(Ended(pieces) + (if last != [] || Ended(pieces) == [] then [last] else []), LastFrom(pieces), LastTo(pieces))
  }

  // ----- reading the pieces -----

  /** `part` stands at `i` in `line`. */
  predicate Stands(line: string, i: nat, part: string) {
    i + |part| <= |line| && line[i..i + |part|] == part
  }

  lemma StandsAt(line: string, i: nat, part: string, k: nat)
    requires Stands(line, i, part) && k < |part|
    ensures line[i + k] == part[k]
  {
    assert line[i..i + |part|][k] == line[i + k];
  }

  lemma StandsSplit(line: string, i: nat, a: string, b: string)
    requires Stands(line, i, a + b)
    ensures Stands(line, i, a) && Stands(line, i + |a|, b)
  {
    assert line[i..i + |a|] == (a + b)[..|a|];
    assert line[i + |a|..i + |a + b|] == (a + b)[|a|..];
  }

  lemma TakesCharacter(p: Parser, line: string, i: nat)
    requires i < |line| && (p.inQuote || line[i] !in SPECIAL)
    ensures ParseFrom(p, line, i)
         == ParseFrom(p.(current := p.current + [line[i]], inQuote := p.inQuote != (line[i] == '"')), line, i + 1)
  {
    hide Redirected, Trim, ParseFrom;
    ParseStep(p, line, i);
  }

  /** The parser after some text outside quotes. */
  function WithText(p: Parser, text: string): Parser
    requires Scan(text, false, SPECIAL).Some?
  {
    p.(current := p.current + text, inQuote := Scan(text, false, SPECIAL).value)
  }

  lemma WithCharacter(p: Parser, text: string, c: char)
    requires Scan(text + [c], false, SPECIAL).Some?
    ensures Scan(text, false, SPECIAL).Some?
    ensures var q := WithText(p, text);
            && (q.inQuote || c !in SPECIAL)
            && q.(current := q.current + [c], inQuote := q.inQuote != (c == '"')) == WithText(p, text + [c])
  {
    hide Scan;
    ScanPush(text, c, false, SPECIAL);
    assert p.current + text + [c] == p.current + (text + [c]);
  }

  lemma NoText(p: Parser)
    requires !p.inQuote
    ensures Scan([], false, SPECIAL).Some? && WithText(p, []) == p
  {
    assert p.current + [] == p.current;
  }

  /** Text is taken over as it is. */
  lemma {:induction false} ReadsText(p: Parser, line: string, i: nat, text: string)
    requires !p.inQuote && Stands(line, i, text) && Scan(text, false, SPECIAL).Some?
    ensures ParseFrom(p, line, i) == ParseFrom(WithText(p, text), line, i + |text|)
  {
    hide Scan, ParseFrom;
    if text == [] {
      NoText(p);
    } else {
      var init, c := text[..|text| - 1], text[|text| - 1];
      assert text == init + [c];
      WithCharacter(p, init, c);
      StandsSplit(line, i, init, [c]);
      StandsAt(line, i, text, |init|);
      ReadsText(p, line, i, init);
      TakesCharacter(WithText(p, init), line, i + |init|);
    }
  }

  lemma {:induction false} SkipsSpaces(line: string, i: nat, n: nat)
    requires Stands(line, i, Spaces(n)) && (i + n < |line| ==> line[i + n] != ' ')
    ensures SkipSpaces(line, i) == i + n
    decreases n
  {
    if n > 0 {
      StandsAt(line, i, Spaces(n), 0);
      assert Spaces(n) == Spaces(1) + Spaces(n - 1);
      StandsSplit(line, i, Spaces(1), Spaces(n - 1));
      SkipsSpaces(line, i + 1, n - 1);
    }
  }

  /** The file name ends at `i`: at the end of the line, at a special or, if there is one, at a space. */
  predicate Ends(line: string, i: nat, file: string) {
    i == |line| || (i < |line| && (line[i] in SPECIAL || (file != [] && line[i] == ' ')))
  }

  lemma {:induction false} FindsNameEnd(line: string, i: nat, file: string)
    requires Stands(line, i, file) && (forall k :: 0 <= k < |file| ==> file[k] != ' ' && file[k] !in SPECIAL)
    requires i + |file| == |line| || line[i + |file|] == ' ' || line[i + |file|] in SPECIAL
    ensures NameEnd(line, i) == i + |file|
    decreases |file|
  {
    if file != [] {
      StandsAt(line, i, file, 0);
      assert file == file[..1] + file[1..];
      StandsSplit(line, i, file[..1], file[1..]);
      FindsNameEnd(line, i + 1, file[1..]);
    }
  }

  lemma ReadsRedirection(p: Parser, line: string, i: nat, gap: nat, file: string, input: bool, append: bool)
    requires Stands(line, i, Spaces(gap) + file) && FileName(file) && Ends(line, i + gap + |file|, file)
    ensures Redirected(p, line, i, input, append)
         == (if file == [] then p
             else if input then p.(command := p.command.(stdin := Some(file)))
             else p.(command := p.command.(stdout := Some(Redirect(file, append)))), i + gap + |file|)
  {
    FindsName(line, i, gap, file);
    hide SkipSpaces, NameEnd, Stands, FileName, Ends, Spaces;
  }

  /** The file name is found behind the spaces. */
  lemma FindsName(line: string, i: nat, gap: nat, file: string)
    requires Stands(line, i, Spaces(gap) + file) && FileName(file) && Ends(line, i + gap + |file|, file)
    ensures i <= |line| && SkipSpaces(line, i) == i + gap && NameEnd(line, i + gap) == i + gap + |file|
    ensures line[i + gap..i + gap + |file|] == file
  {
    hide SkipSpaces, NameEnd;
    StandsSplit(line, i, Spaces(gap), file);
    if file != [] {
      StandsAt(line, i + gap, file, 0);
    }
    SkipsSpaces(line, i, gap);
    FindsNameEnd(line, i + gap, file);
  }

  /** The parser after a piece. */
  function After(p: Parser, piece: Piece): Parser {
    match piece
    case Words(text) => p.(current := p.current + text)
    case Pipe => p.(command := p.command.(segments := p.command.segments + [Trim(p.current)]), current := [])
    case From(_, file) => if file == [] then p else p.(command := p.command.(stdin := Some(file)))
    case To(append, _, file) => if file == [] then p else p.(command := p.command.(stdout := Some(Redirect(file, append))))
  }

  lemma ReadsPiece(p: Parser, line: string, i: nat, piece: Piece)
    requires !p.inQuote && PieceFits(piece) && Stands(line, i, Show1(piece))
    requires IsRedirection(piece) ==> Follows(line, i + |Show1(piece)|, piece)
    ensures ParseFrom(p, line, i) == ParseFrom(After(p, piece), line, i + |Show1(piece)|)
  {
    hide Trim, Redirected, ParseFrom, Scan, Stands, Show1, After, Follows;
    match piece {
      case Words(text) =>
        ReadsWords(p, line, i, text);
      case Pipe =>
        ReadsPipe(p, line, i);
      case From(gap, file) =>
        ReadsFrom(p, line, i, gap, file);
      case To(append, gap, file) =>
        ReadsTo(p, line, i, append, gap, file);
    }
  }

  lemma ReadsWords(p: Parser, line: string, i: nat, text: string)
    requires !p.inQuote && PieceFits(Words(text)) && Stands(line, i, Show1(Words(text)))
    ensures ParseFrom(p, line, i) == ParseFrom(After(p, Words(text)), line, i + |Show1(Words(text))|)
  {
    hide ParseFrom, Scan;
    ReadsText(p, line, i, text);
  }

  lemma ReadsPipe(p: Parser, line: string, i: nat)
    requires !p.inQuote && Stands(line, i, Show1(Pipe))
    ensures ParseFrom(p, line, i) == ParseFrom(After(p, Pipe), line, i + |Show1(Pipe)|)
  {
    hide Trim, Redirected, ParseFrom;
    StandsAt(line, i, "|", 0);
    ParseStep(p, line, i);
  }

  lemma FromStands(line: string, i: nat, rest: string)
    requires Stands(line, i, "<" + rest)
    ensures i < |line| && line[i] == '<' && Stands(line, i + 1, rest)
  {
    StandsSplit(line, i, "<", rest);
    StandsAt(line, i, "<", 0);
  }

  lemma ReadsFrom(p: Parser, line: string, i: nat, gap: nat, file: string)
    requires !p.inQuote && FileName(file) && Stands(line, i, Show1(From(gap, file)))
    requires Follows(line, i + |Show1(From(gap, file))|, From(gap, file))
    ensures ParseFrom(p, line, i) == ParseFrom(After(p, From(gap, file)), line, i + |Show1(From(gap, file))|)
  {
    hide Redirected, ParseFrom, Trim, Spaces, FileName, Stands;
    FromStands(line, i, Spaces(gap) + file);
    ReadsRedirection(p, line, i + 1, gap, file, true, false);
    ParseStep(p, line, i);
  }

  /** The sign at `i` is `>>` or a single `>`. */
  predicate Sign(line: string, i: nat, append: bool) {
    && i < |line| && line[i] == '>'
    && append == (i + 1 < |line| && line[i + 1] == '>')
  }

  lemma ReadsSign(p: Parser, line: string, i: nat, append: bool)
    requires !p.inQuote && Sign(line, i, append)
    ensures var (next, j) := Redirected(p, line, if append then i + 2 else i + 1, false, append);
            ParseFrom(p, line, i) == ParseFrom(next, line, j)
  {
    hide Redirected, ParseFrom, Trim;
    ParseStep(p, line, i);
  }

  lemma SignStands(line: string, i: nat, append: bool, rest: string)
    requires Stands(line, i, SignOf(append) + rest)
    requires !append && i + 1 < |line| ==> line[i + 1] != '>'
    ensures Sign(line, i, append) && Stands(line, if append then i + 2 else i + 1, rest)
  {
    var sign := SignOf(append);
    StandsSplit(line, i, sign, rest);
    StandsAt(line, i, sign, 0);
    if append {
      StandsAt(line, i, sign, 1);
    }
  }

  lemma RestIsNoSign(line: string, i: nat, gap: nat, file: string)
    requires FileName(file) && Stands(line, i, ">" + (Spaces(gap) + file))
    requires gap == 0 && file == [] && i + 1 < |line| ==> line[i + 1] != '>'
    ensures i + 1 < |line| ==> line[i + 1] != '>'
  {
    var rest := Spaces(gap) + file;
    StandsSplit(line, i, ">", rest);
    if rest != [] {
      StandsAt(line, i + 1, rest, 0);
    }
  }

  lemma SingleSign()
    ensures SignOf(false) == ">"
  {
  }

  lemma ReadsTo(p: Parser, line: string, i: nat, append: bool, gap: nat, file: string)
    requires !p.inQuote && FileName(file) && Stands(line, i, Show1(To(append, gap, file)))
    requires Follows(line, i + |Show1(To(append, gap, file))|, To(append, gap, file))
    ensures ParseFrom(p, line, i) == ParseFrom(After(p, To(append, gap, file)), line, i + |Show1(To(append, gap, file))|)
  {
    hide Redirected, ParseFrom, Trim, Spaces, Stands, Sign, FileName, SignOf;
    var rest := Spaces(gap) + file;
    if !append {
      assert SignOf(append) == ">" by {
        SingleSign();
      }
      RestIsNoSign(line, i, gap, file);
    }
    SignStands(line, i, append, rest);
    ReadsSign(p, line, i, append);
    ReadsRedirection(p, line, if append then i + 2 else i + 1, gap, file, false, append);
  }

  /** What stands behind a redirection does not belong to it. */
  predicate Follows(line: string, i: nat, piece: Piece)
    requires IsRedirection(piece)
  {
    && Ends(line, i, piece.file)
    && (piece.To? && !piece.append && piece.gap == 0 && piece.file == [] && i < |line| ==> line[i] != '>')
  }

  lemma FirstCharacter(piece: Piece, next: Piece)
    requires PieceFits(next) && IsRedirection(piece) && MayFollow(piece, next)
    ensures Show1(next) != []
    ensures Follows(Show1(next), 0, piece)
  {
    match next
    case Words(text) =>
    case Pipe =>
    case From(gap, file) => assert Show1(next) == "<" + (Spaces(gap) + file);
    case To(append, gap, file) => assert Show1(next)[0] == '>';
  }

  lemma PieceEnds(pieces: seq<Piece>, k: nat, line: string)
    requires PiecesFit(pieces) && k < |pieces| && IsRedirection(pieces[k])
    requires line == Show(pieces)
    ensures |Show(pieces[..k + 1])| <= |line| && Follows(line, |Show(pieces[..k + 1])|, pieces[k])
  {
    hide Show, Show1;
    if k + 1 == |pieces| {
      assert pieces[..|pieces|] == pieces;
    } else {
      PieceStands(pieces, k + 1);
      var next := pieces[k + 1];
      assert PieceFits(next) && MayFollow(pieces[k + 1 - 1], next);
      FirstCharacter(pieces[k], next);
      StandsAt(line, |Show(pieces[..k + 1])|, Show1(next), 0);
    }
  }

  lemma {:induction false} PieceStands(pieces: seq<Piece>, k: nat)
    requires k < |pieces|
    ensures Stands(Show(pieces), |Show(pieces[..k])|, Show1(pieces[k]))
    ensures Show(pieces[..k + 1]) == Show(pieces[..k]) + Show1(pieces[k])
  {
    hide Show1;
    assert pieces[..k + 1][..k] == pieces[..k];
    if k + 1 == |pieces| {
      assert pieces[..k + 1] == pieces;
    } else {
      var init := pieces[..|pieces| - 1];
      PieceStands(init, k);
      assert init[..k] == pieces[..k];
    }
  }

  /** The parser after all pieces before the `k`-th. */
  function State(pieces: seq<Piece>): Parser {
    Parser(Command(Ended(pieces), LastFrom(pieces), LastTo(pieces)), Current(pieces), false)
  }

  lemma StateAfter(pieces: seq<Piece>, k: nat)
    requires k < |pieces|
    ensures State(pieces[..k + 1]) == After(State(pieces[..k]), pieces[k])
  {
    hide Trim;
    assert pieces[..k + 1][..k] == pieces[..k];
  }

  lemma {:induction false} ReadsPieces(pieces: seq<Piece>, k: nat)
    requires PiecesFit(pieces) && k <= |pieces|
    ensures |Show(pieces[..k])| <= |Show(pieces)|
    ensures ParseFrom(NOTHING_PARSED, Show(pieces), 0) == ParseFrom(State(pieces[..k]), Show(pieces), |Show(pieces[..k])|)
  {
    hide ParseFrom, Show1, After, State;
    if k == 0 {
      NothingShown();
      assert pieces[..0] == [];
    } else {
      ReadsPieces(pieces, k - 1);
      PieceStands(pieces, k - 1);
      if IsRedirection(pieces[k - 1]) {
        PieceEnds(pieces, k - 1, Show(pieces));
      }
      StateOpen(pieces[..k - 1]);
      ReadsPiece(State(pieces[..k - 1]), Show(pieces), |Show(pieces[..k - 1])|, pieces[k - 1]);
      StateAfter(pieces, k - 1);
    }
  }

  lemma StateOpen(pieces: seq<Piece>)
    ensures !State(pieces).inQuote
  {
  }

  lemma NothingShown()
    ensures State([]) == NOTHING_PARSED && Show([]) == []
  {
  }

  /**
   * A command line put together from pieces parses to what they mean: segments trimmed and in
   * order, redirections wherever they stand, the last of each kind counting, `>>` appending.
   */
  lemma PiecesComeBack(pieces: seq<Piece>)
    requires PiecesFit(pieces)
    ensures Parsed(Show(pieces)) == Meaning(pieces)
  {
    hide ParseFrom, Trim;
    ReadsPieces(pieces, |pieces|);
    assert pieces[..|pieces|] == pieces;
    ParseEnd(State(pieces), Show(pieces));
    assert Ended(pieces) + [] == Ended(pieces);
  }
}
