/**
 * The lexer of lexer.c: token kinds, the lexeme classifier, the token-boundary rule, and the
 * cursor loop `lexer_next_token`, given both as a specification function (`NextSpec`) and as a
 * method on a `Lexer` object that owns its automaton.
 */
module Lexer {
  import opened Wrappers
  import opened Bytes
  import opened Automaton
  import opened LexerTable

  datatype TokenKind =
    | Literal | BoolDecl | NatDecl | FuncDecl
    | QuestionMark | Colon | Semicolon | LeftParen | RightParen | Plus | Ampersand | Arrow | Less | Equal
    | Comment | Identifier | Eof | Invalid

  /** Byte offsets `start..end` (inclusive) of a lexeme, and the line and column of its first byte. */
  datatype Span = Span(start: nat, end: nat, line: nat, column: nat)

  /** A token; `span` is `None` exactly for the end-of-file token. */
  datatype Token = Token(lexeme: seq<Byte>, span: Option<Span>, kind: TokenKind)

  /** The local `LexerState` of `lexer_next_token`: what kind of lexeme the cursor is inside. */
  datatype Mode = CommentMode | IdentifierMode | NumberMode | PendingMode

  /** `eof_token`. */
  function EofToken(): Token {
    Token([], None, Eof)
  }

  /** The punctuation kinds, selected by the first byte of the lexeme. */
  predicate IsPunctuationKind(k: TokenKind) {
    k in {QuestionMark, Colon, Semicolon, LeftParen, RightParen, Plus, Ampersand, Less, Equal}
  }

  function FirstByte(lexeme: seq<Byte>): Byte {
    if |lexeme| > 0 then lexeme[0] else '\0'
  }

  predicate IsKeywordOrBool(lexeme: seq<Byte>) {
    lexeme == "fun" || lexeme == "T" || lexeme == "F" || lexeme == "bool" || lexeme == "nat"
  }

  /**
   * `get_token_type`: first a switch on the first byte, then exact keyword and boolean matches,
   * then numerals (digit-leading) against everything else.
   */
  function GetTokenType(lexeme: seq<Byte>): (k: TokenKind)
    ensures k != Eof && k != Invalid
  {
    var first := FirstByte(lexeme);
    if first == '?' then QuestionMark
    else if first == ':' then Colon
    else if first == ';' then Semicolon
    else if first == '(' then LeftParen
    else if first == ')' then RightParen
    else if first == '+' then Plus
    else if first == '&' then Ampersand
    else if first == '-' then Arrow
    else if first == '<' then Less
    else if first == '=' then Equal
    else if first == '[' then Comment
    else if lexeme == "fun" then FuncDecl
    else if lexeme == "T" || lexeme == "F" then Literal
    else if lexeme == "bool" then BoolDecl
    else if lexeme == "nat" then NatDecl
    else if IsDigit(first) then Literal
    else Identifier
  }

  /** The three stages of `get_token_type`, kind by kind. */
  lemma GetTokenTypeCases(lexeme: seq<Byte>)
    ensures var k := GetTokenType(lexeme);
      && (IsPunctuationKind(k) <==> FirstByte(lexeme) in "?:;()+&<=")
      && (k == Arrow <==> FirstByte(lexeme) == '-')
      && (k == Comment <==> FirstByte(lexeme) == '[')
      && (FirstByte(lexeme) !in "?:;()+&-<=[" ==>
        && (k == FuncDecl <==> lexeme == "fun")
        && (k == BoolDecl <==> lexeme == "bool")
        && (k == NatDecl <==> lexeme == "nat")
        && (k == Literal <==> lexeme == "T" || lexeme == "F" || IsDigit(FirstByte(lexeme)))
        && (k == Identifier <==> !IsKeywordOrBool(lexeme) && !IsDigit(FirstByte(lexeme))))
  {
  }

  /**
   * `need_to_check_dfa`: whether the byte `cur` just fed to the automaton ends the lexeme, given the
   * next byte `peek` and the mode. Nothing ends inside a comment before `]`; a letter ends the lexeme
   * exactly when the next byte is no letter or digit, and so does a digit in an identifier; a digit
   * in a number ends it exactly when the next byte is no digit; `-` before `>` never ends it; any
   * other byte ends it at once. A digit in a mode other than identifier or number falls through to
   * the final cases (the source only logs there).
   */
  function NeedToCheckDfa(cur: Byte, peek: Byte, mode: Mode): bool {
    if cur != ']' && mode == CommentMode then false
    else if IsAlpha(cur) then !IsAlpha(peek) && !IsDigit(peek)
    else if IsDigit(cur) && mode == IdentifierMode then !IsAlpha(peek) && !IsDigit(peek)
    else if IsDigit(cur) && mode == NumberMode then !IsDigit(peek)
    else if cur == '-' && peek == '>' then false
    else true
  }

  /** The mode after looking at byte `c`: only a pending mode is refined, by the lexeme's first byte. */
  function NextMode(mode: Mode, c: Byte): Mode {
    if mode != PendingMode then mode
    else if c == '[' then CommentMode
    else if IsDigit(c) then NumberMode
    else if IsAlpha(c) then IdentifierMode
    else PendingMode
  }

  /** Outside comments, whitespace and the terminating NUL are skipped. */
  predicate IsBlank(c: Byte) { IsSpace(c) || c == '\0' }

  /** A source buffer `src` whose first NUL is at `len` (`len == strlen(src)`). */
  ghost predicate SrcOk(src: seq<Byte>, len: nat) {
    len < |src| && src[len] == '\0' && forall i :: 0 <= i < len ==> src[i] != '\0'
  }

  /** The byte after `cursor`, or NUL when that is at or past `len`. */
  function Peek(src: seq<Byte>, len: nat, cursor: nat): Byte
    requires cursor < |src| && len < |src|
  {
    if cursor + 1 < len then src[cursor + 1] else '\0'
  }

  /** The mutable part of a lexer: lexeme bounds, position, and the automaton's current state. */
  datatype LexState = LexState(start: nat, end: nat, line: nat, column: nat, dfa: nat)

  /** The arithmetic the cursor loop keeps: `start <= end`, and the column of `start` is at least 1. */
  predicate Sane(s: LexState) {
    s.start <= s.end && s.end - s.start < s.column && s.dfa < NUM_STATES
  }

  /** The state after `lexer_new`. */
  function InitState(): (s: LexState)
    ensures Sane(s)
  {
    LexState(0, 0, 1, 1, START)
  }

  /**
   * The token built for the lexeme `src[start..end]`: its bytes copied out of the source, its span,
   * and its kind, classified only when the automaton accepted it.
   */
  function MakeToken(src: seq<Byte>, start: nat, end: nat, line: nat, column: nat, accept: bool): (t: Token)
    requires start <= end && end - start < column
    ensures t.kind != Eof && (t.kind == Invalid <==> !accept)
    ensures end < |src| && (forall i :: start <= i <= end ==> src[i] != '\0') ==> t.lexeme == src[start..end + 1]
  {
    var lexeme := CopyString(src, start, end - start + 1);
    var span := Span(start, end, line, column - (end - start));
    Token(lexeme, Some(span), if accept then GetTokenType(lexeme) else Invalid)
  }

  /** Emitting the current lexeme, classified by the automaton state `s.dfa` reached on it. */
  function Emit(src: seq<Byte>, s: LexState): (r: (Token, LexState))
    requires Sane(s)
    ensures Sane(r.1) && r.1.start == r.1.end == s.end + 1 && r.1.dfa == START
    ensures r.0.kind != Eof
  {
    (MakeToken(src, s.start, s.end, s.line, s.column, Accepting(s.dfa)), LexState(s.end + 1, s.end + 1, s.line, s.column + 1, START))
  }

  /** The outcome of one iteration of the cursor loop: go on in `mode`, or return `token`. */
  datatype Action = Continue(mode: Mode, state: LexState) | Done(token: Token, state: LexState)

  /**
   * One iteration of the `while (cursor <= len)` loop of `lexer_next_token` at `src[cursor]`:
   * refine the mode; outside a comment skip a blank byte (a newline moves to column 1 of the
   * next line); otherwise feed the byte to the automaton, and either emit the lexeme or extend it.
   */
  function Iterate(src: seq<Byte>, len: nat, cursor: nat, mode: Mode, s: LexState): (r: Action)
    requires SrcOk(src, len) && Sane(s) && s.start <= cursor <= len
    ensures Sane(r.state)
    ensures r.Continue? ==> s.start <= r.state.start <= cursor + 1
    ensures r.Done? ==> s.start < r.state.start && r.token.kind != Eof
  {
    var c := src[cursor];
    var m := NextMode(mode, c);
    if m != CommentMode && IsBlank(c) then
      var s1 := if c == '\n' then s.(line := s.line + 1, column := 1) else s.(column := s.column + 1);
      Continue(m, s1.(start := cursor + 1, end := cursor + 1))
    else
      var d := Step(s.dfa, c);
      if NeedToCheckDfa(c, Peek(src, len, cursor), m) then
        var (t, s1) := Emit(src, s.(dfa := d));
        Done(t, s1)
      else Continue(m, s.(end := s.end + 1, column := s.column + 1, dfa := d))
  }

  /** The `while (cursor <= len)` loop of `lexer_next_token`, from `cursor` in mode `mode`. */
  function Scan(src: seq<Byte>, len: nat, cursor: nat, mode: Mode, s: LexState): (r: (Token, LexState))
    requires SrcOk(src, len) && Sane(s) && s.start <= cursor
    ensures Sane(r.1) && r.1.start >= s.start
    ensures r.0.kind != Eof ==> r.1.start > s.start
    decreases len + 1 - cursor
  {
    if cursor > len then (EofToken(), s)
    else match Iterate(src, len, cursor, mode, s)
      case Done(t, s1) => (t, s1)
      case Continue(m, s1) => Scan(src, len, cursor + 1, m, s1)
  }

  lemma NextSpecScans(src: seq<Byte>, len: nat, s: LexState)
    requires SrcOk(src, len) && Sane(s) && s.start <= len
    ensures NextSpec(src, len, s) == Scan(src, len, s.start, PendingMode, s)
  {
  }

  lemma ScanPastEnd(src: seq<Byte>, len: nat, cursor: nat, mode: Mode, s: LexState)
    requires SrcOk(src, len) && Sane(s) && s.start <= cursor && cursor > len
    ensures Scan(src, len, cursor, mode, s) == (EofToken(), s)
  {
  }

  /** One iteration of `Scan`. */
  lemma ScanIterates(src: seq<Byte>, len: nat, cursor: nat, mode: Mode, s: LexState)
    requires SrcOk(src, len) && Sane(s) && s.start <= cursor <= len
    ensures var a := Iterate(src, len, cursor, mode, s);
      Scan(src, len, cursor, mode, s) ==
        if a.Done? then (a.token, a.state) else Scan(src, len, cursor + 1, a.mode, a.state)
  {
  }

  /** One call of `lexer_next_token`: the token returned and the lexer state left behind. */
  function NextSpec(src: seq<Byte>, len: nat, s: LexState): (r: (Token, LexState))
    requires SrcOk(src, len) && Sane(s)
    ensures Sane(r.1) && r.1.start >= s.start
    ensures r.0.kind != Eof ==> s.start <= len && r.1.start > s.start
  {
    if s.start > len then (EofToken(), s) else Scan(src, len, s.start, PendingMode, s)
  }

  /** The tokens before the first end-of-file token, as the test suite's iterator collects them. */
  function Tokenize(src: seq<Byte>, len: nat, s: LexState): seq<Token>
    requires SrcOk(src, len) && Sane(s)
    decreases if s.start <= len then len + 1 - s.start else 0
  {
    var r := NextSpec(src, len, s);
    if r.0.kind == Eof then [] else [r.0] + Tokenize(src, len, r.1)
  }

  /** The tokens of a NUL-free text, from a fresh lexer. */
  function Lex(text: seq<Byte>): seq<Token>
    requires '\0' !in text
  {
    var src := text + ['\0'];
    assert SrcOk(src, |text|);
    Tokenize(src, |text|, InitState())
  }

  /** `struct Lexer`, with its own copy of the lexer automaton. */
  class Lexer {
    const src: seq<Byte>
    const len: nat
    const dfa: Dfa
    var start: nat
    var end: nat
    var line: nat
    var column: nat

    ghost predicate Valid()
      reads this, dfa
    {
      && SrcOk(src, len)
      && dfa.Valid()
      && dfa.table == Table() && dfa.numStates == NUM_STATES && dfa.start == START && dfa.accepts == ACCEPTS
      && start <= end && end - start < column
    }

    ghost function State(): LexState
      reads this, dfa
    {
      LexState(start, end, line, column, dfa.state)
    }

    /** `lexer_new`: the source is `text` followed by its terminating NUL. */
    constructor (text: seq<Byte>)
      ensures Valid() && fresh(dfa)
      ensures src == text + ['\0'] && len == StrLen(src)
      ensures State() == InitState()
    {
      var buf := text + ['\0'];
      assert buf[|text|] == '\0';
      TableWellFormed();
      src := buf;
      len := StrLen(buf);
      dfa := new Dfa(Table(), NUM_STATES, START, ACCEPTS);
      start, end := 0, 0;
      line, column := 1, 1;
    }

    /**
     * The branch of `lexer_next_token` that ends a lexeme: copy `src[start..end]`, classify it
     * when the automaton accepts it, reset the automaton, and move `start` past the lexeme.
     */
    method TakeToken() returns (t: Token)
      requires Valid()
      modifies this, dfa
      ensures Valid()
      ensures (t, State()) == Emit(src, old(State()))
    {
      var accept := dfa.IsAccept();
      t := MakeToken(src, start, end, line, column, accept);
      dfa.Reset();
      start := end + 1;
      end := start;
      column := column + 1;
    }

    /** One iteration of the cursor loop of `lexer_next_token`, at `src[cursor]`. */
    method Advance(cursor: nat, mode: Mode) returns (t: Option<Token>, next: Mode)
      requires Valid() && start <= cursor <= len
      modifies this, dfa
      ensures Valid()
      ensures var a := Iterate(src, len, cursor, mode, old(State()));
        State() == a.state && (if a.Done? then t == Some(a.token) else t == None && next == a.mode)
    {
      var c := src[cursor];
      next := mode;
      if next == PendingMode {
        if c == '[' {
          next := CommentMode;
        }
        if IsDigit(c) {
          next := NumberMode;
        }
        if IsAlpha(c) {
          next := IdentifierMode;
        }
      }
      assert next == NextMode(mode, c);
      var peek := if cursor + 1 < len then src[cursor + 1] else '\0';
      if next != CommentMode && (IsSpace(c) || c == '\0') {
        if c == '\n' {
          line := line + 1;
          column := 1;
        } else {
          column := column + 1;
        }
        start := cursor + 1;
        end := cursor + 1;
        t := None;
      } else {
        StepIsTable(dfa.state, c);
        dfa.Next(c);
        if NeedToCheckDfa(c, peek, next) {
          var token := TakeToken();
          t := Some(token);
        } else {
          end := end + 1;
          column := column + 1;
          t := None;
        }
      }
    }

    /** `lexer_next_token`. */
    method NextToken() returns (t: Token)
      requires Valid()
      modifies this, dfa
      ensures Valid()
      ensures (t, State()) == NextSpec(src, len, old(State()))
    {
      if start > len {
        return EofToken();
      }
      ghost var goal := NextSpec(src, len, State());
      NextSpecScans(src, len, State());
      var cursor := start;
      var mode := PendingMode;
      while cursor <= len
        invariant Valid() && start <= cursor
        invariant Scan(src, len, cursor, mode, State()) == goal
        decreases len + 1 - cursor
      {
        ScanIterates(src, len, cursor, mode, State());
        var emitted;
        emitted, mode := Advance(cursor, mode);
        if emitted.Some? {
          return emitted.value;
        }
        cursor := cursor + 1;
      }
      ScanPastEnd(src, len, cursor, mode, State());
      t := EofToken();
    }
  }
}
