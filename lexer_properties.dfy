/**
 * What one call of `lexer_next_token` returns, proved about `NextSpec` for every source: the
 * lexeme is the source slice between the span's bounds, only whitespace is skipped before it,
 * the next call starts fresh just after it, the kind is Invalid exactly when the automaton
 * rejects the lexeme, a `[` lexeme runs through the first `]`, and an end-of-file token comes
 * either after trailing whitespace or inside an unterminated comment.
 */
module LexerProperties {
  import opened Wrappers
  import opened Bytes
  import opened LexerTable
  import opened Lexer

  /** Every byte of `src[i..j]` is whitespace. */
  ghost predicate Blanks(src: seq<Byte>, i: nat, j: nat) {
    forall k :: i <= k < j ==> k < |src| && IsSpace(src[k])
  }

  /** No byte of `src[i..j]` is `]`. */
  ghost predicate NoClose(src: seq<Byte>, i: nat, j: nat) {
    forall k :: i <= k < j ==> k < |src| && src[k] != ']'
  }

  /** The state between two lexemes: `start == end`, and the automaton at its start state. */
  predicate Fresh(s: LexState) {
    Sane(s) && s.start == s.end && s.dfa == START
  }

  /**
   * What a call from the fresh state `s0` returns: a token `t` and the state `s1` left behind.
   * A real token is the slice `src[sp.start..sp.end]` of its span, preceded only by whitespace
   * since `s0.start`, followed by a fresh state at `sp.end + 1`, classified when accepted and
   * Invalid otherwise. End of file is reached after whitespace only, or inside a comment that
   * never closes, which leaves `start` at its `[` and the automaton in the comment state 6.
   */
  ghost predicate NextOk(src: seq<Byte>, len: nat, s0: LexState, t: Token, s1: LexState)
    requires len < |src|
  {
    if t.kind == Eof then
      && t == EofToken()
      && s1.end == len + 1
      && ((s1.start == len + 1 && s1.dfa == START && Blanks(src, s0.start, len))
          || (&& s0.start <= s1.start < len
              && Blanks(src, s0.start, s1.start)
              && src[s1.start] == '[' && NoClose(src, s1.start, len)
              && s1.dfa == 6))
    else
      && t.span.Some?
      && var sp := t.span.value;
      && s0.start <= sp.start <= sp.end < len
      && Blanks(src, s0.start, sp.start) && !IsSpace(src[sp.start])
      && t.lexeme == src[sp.start..sp.end + 1]
      && (sp.start == s0.start ==> sp.line == s0.line && sp.column == s0.column)
      && s1.start == s1.end == sp.end + 1 && s1.dfa == START
      && (t.kind == Invalid <==> !Accepting(RunFrom(START, t.lexeme)))
      && (t.kind != Invalid ==> t.kind == GetTokenType(t.lexeme))
      && (src[sp.start] == '[' ==> t.kind == Comment && src[sp.end] == ']' && NoClose(src, sp.start, sp.end))
  }

  /** The loop before the lexeme: at `cursor`, every byte since `s0.start` was blank. */
  ghost predicate Skipping(src: seq<Byte>, len: nat, cursor: nat, mode: Mode, s: LexState, s0: LexState) {
    && mode == PendingMode
    && s.start == s.end == cursor && s.dfa == START
    && s0.start <= cursor <= len + 1
    && Blanks(src, s0.start, if cursor <= len then cursor else len)
    && (cursor == s0.start ==> s.line == s0.line && s.column == s0.column)
  }

  /**
   * The loop inside the lexeme `src[s.start..cursor]`: the automaton has read it; outside a
   * comment the byte at `cursor` is a real byte that continues it in the same mode; inside a
   * comment the lexeme opened with `[` and has not met `]`.
   */
  ghost predicate Feeding(src: seq<Byte>, len: nat, cursor: nat, mode: Mode, s: LexState, s0: LexState) {
    && len < |src|
    && s0.start <= s.start < cursor == s.end <= len + 1 && s.start < len
    && Blanks(src, s0.start, s.start) && !IsBlank(src[s.start])
    && s.dfa == RunFrom(START, src[s.start..cursor])
    && (mode != CommentMode ==>
          && cursor < len && !IsBlank(src[cursor]) && NextMode(mode, src[cursor]) == mode
          && src[s.start] != '[')
    && (mode == CommentMode ==> src[s.start] == '[' && s.dfa == 6 && NoClose(src, s.start + 1, cursor))
    && (s.start == s0.start ==> s.line == s0.line && s.column - (s.end - s.start) == s0.column)
  }

  /** Outside a comment, a byte fed without ending the lexeme is followed by a byte that continues it. */
  lemma NoCheckPeek(c: Byte, peek: Byte, m: Mode)
    requires m != CommentMode && !NeedToCheckDfa(c, peek, m)
    requires m == PendingMode ==> !IsAlnum(c)
    ensures peek != '\0' && !IsBlank(peek) && NextMode(m, peek) == m
  {
  }

  /** The bytes before `len` are the C string's own bytes. */
  lemma LexemeIsSlice(src: seq<Byte>, len: nat, start: nat, end: nat)
    requires SrcOk(src, len) && start <= end < len
    ensures CopyString(src, start, end - start + 1) == src[start..end + 1]
  {
  }

  lemma RunFromOne(c: Byte)
    ensures RunFrom(START, [c]) == Step(START, c)
  {
    assert [c][1..] == [];
  }

  /** The token emitted at `cursor`, where the automaton has read `src[s.start..cursor]` inclusive. */
  lemma EmitShape(src: seq<Byte>, len: nat, cursor: nat, s: LexState, s0: LexState)
    requires SrcOk(src, len) && Sane(s) && s0.start <= s.start <= cursor == s.end < len
    requires Blanks(src, s0.start, s.start) && !IsSpace(src[s.start])
    requires s.dfa == RunFrom(START, src[s.start..cursor + 1])
    requires s.start == s0.start ==> s.line == s0.line && s.column - (s.end - s.start) == s0.column
    requires src[s.start] == '[' ==> src[cursor] == ']' && s.dfa == 7 && NoClose(src, s.start, cursor)
    ensures var r := Emit(src, s); NextOk(src, len, s0, r.0, r.1)
  {
    LexemeIsSlice(src, len, s.start, cursor);
    var r := Emit(src, s);
    assert r.0.lexeme == src[s.start..cursor + 1];
    if src[s.start] == '[' {
      assert r.0.lexeme[0] == '[';
    }
  }

  /** An iteration that emits the lexeme's first byte keeps the promise of `NextOk`. */
  lemma SkippingDone(src: seq<Byte>, len: nat, cursor: nat, mode: Mode, s: LexState, s0: LexState)
    requires SrcOk(src, len) && Sane(s) && s.start <= cursor <= len
    requires Skipping(src, len, cursor, mode, s, s0)
    requires Iterate(src, len, cursor, mode, s).Done?
    ensures var a := Iterate(src, len, cursor, mode, s); NextOk(src, len, s0, a.token, a.state)
  {
    var c := src[cursor];
    assert c != '\0' && c != '[';
    RunFromOne(c);
    assert src[cursor..cursor + 1] == [c];
    EmitShape(src, len, cursor, s.(dfa := Step(s.dfa, c)), s0);
  }

  /** Emitting a lexeme of two or more bytes at `cursor` keeps the promise of `NextOk`. */
  lemma FeedingEmits(src: seq<Byte>, len: nat, cursor: nat, mode: Mode, s: LexState, s0: LexState)
    requires SrcOk(src, len) && Sane(s) && s.start <= cursor <= len
    requires Feeding(src, len, cursor, mode, s, s0)
    requires NeedToCheckDfa(src[cursor], Peek(src, len, cursor), NextMode(mode, src[cursor]))
    ensures var r := Emit(src, s.(dfa := Step(s.dfa, src[cursor]))); NextOk(src, len, s0, r.0, r.1)
  {
    var c := src[cursor];
    assert src[s.start..cursor + 1] == src[s.start..cursor] + [c];
    RunFromSnoc(START, src[s.start..cursor], c);
    EmitShape(src, len, cursor, s.(dfa := Step(s.dfa, c)), s0);
  }

  /** An iteration that emits a lexeme of two or more bytes keeps the promise of `NextOk`. */
  lemma FeedingDone(src: seq<Byte>, len: nat, cursor: nat, mode: Mode, s: LexState, s0: LexState)
    requires SrcOk(src, len) && Sane(s) && s.start <= cursor <= len
    requires Feeding(src, len, cursor, mode, s, s0)
    requires Iterate(src, len, cursor, mode, s).Done?
    ensures var a := Iterate(src, len, cursor, mode, s); NextOk(src, len, s0, a.token, a.state)
  {
    FeedingEmits(src, len, cursor, mode, s, s0);
  }

  /** Before the lexeme, an iteration that goes on skips a blank byte or starts the lexeme. */
  lemma SkippingContinue(src: seq<Byte>, len: nat, cursor: nat, mode: Mode, s: LexState, s0: LexState)
    requires SrcOk(src, len) && Sane(s) && s.start <= cursor <= len
    requires Skipping(src, len, cursor, mode, s, s0)
    requires Iterate(src, len, cursor, mode, s).Continue?
    ensures var a := Iterate(src, len, cursor, mode, s);
      Skipping(src, len, cursor + 1, a.mode, a.state, s0) || Feeding(src, len, cursor + 1, a.mode, a.state, s0)
  {
    var c := src[cursor];
    var m := NextMode(mode, c);
    var a := Iterate(src, len, cursor, mode, s);
    if m != CommentMode && IsBlank(c) {
      assert Skipping(src, len, cursor + 1, a.mode, a.state, s0);
    } else {
      assert src[cursor..cursor + 1] == [c] by {
        assert |src[cursor..cursor + 1]| == 1 && src[cursor..cursor + 1][0] == c;
      }
      if m != CommentMode {
        NoCheckPeek(c, Peek(src, len, cursor), m);
      }
      RunFromOne(c);
      assert Feeding(src, len, cursor + 1, a.mode, a.state, s0);
    }
  }

  /** Inside the lexeme, an iteration that goes on feeds one more byte of it. */
  lemma FeedingContinue(src: seq<Byte>, len: nat, cursor: nat, mode: Mode, s: LexState, s0: LexState)
    requires SrcOk(src, len) && Sane(s) && s.start <= cursor <= len
    requires Feeding(src, len, cursor, mode, s, s0)
    requires Iterate(src, len, cursor, mode, s).Continue?
    ensures var a := Iterate(src, len, cursor, mode, s); Feeding(src, len, cursor + 1, a.mode, a.state, s0)
  {
    var c := src[cursor];
    var m := NextMode(mode, c);
    var a := Iterate(src, len, cursor, mode, s);
    if m != CommentMode {
      NoCheckPeek(c, Peek(src, len, cursor), m);
    }
    assert src[s.start..cursor + 1] == src[s.start..cursor] + [c];
    RunFromSnoc(START, src[s.start..cursor], c);
  }

  /** The whole loop, from either phase, keeps the promise of `NextOk`. */
  lemma {:induction false} ScanShape(src: seq<Byte>, len: nat, cursor: nat, mode: Mode, s: LexState, s0: LexState)
    requires SrcOk(src, len) && Sane(s) && s.start <= cursor
    requires Skipping(src, len, cursor, mode, s, s0) || Feeding(src, len, cursor, mode, s, s0)
    ensures var r := Scan(src, len, cursor, mode, s); NextOk(src, len, s0, r.0, r.1)
    decreases len + 1 - cursor
  {
    if cursor > len {
      ScanPastEnd(src, len, cursor, mode, s);
      if Feeding(src, len, cursor, mode, s, s0) {
        assert NoClose(src, s.start, len);
      }
    } else {
      ScanIterates(src, len, cursor, mode, s);
      var a := Iterate(src, len, cursor, mode, s);
      if a.Done? {
        if Skipping(src, len, cursor, mode, s, s0) {
          SkippingDone(src, len, cursor, mode, s, s0);
        } else {
          FeedingDone(src, len, cursor, mode, s, s0);
        }
      } else {
        if Skipping(src, len, cursor, mode, s, s0) {
          SkippingContinue(src, len, cursor, mode, s, s0);
        } else {
          FeedingContinue(src, len, cursor, mode, s, s0);
        }
        ScanShape(src, len, cursor + 1, a.mode, a.state, s0);
      }
    }
  }

  /** One call of `lexer_next_token` from a fresh state inside the source. */
  lemma NextTokenShape(src: seq<Byte>, len: nat, s: LexState)
    requires SrcOk(src, len) && Fresh(s) && s.start <= len
    ensures var r := NextSpec(src, len, s); NextOk(src, len, s, r.0, r.1)
  {
    NextSpecScans(src, len, s);
    ScanShape(src, len, s.start, PendingMode, s, s);
  }

  /** Once `start` is past `len`, every call returns the end-of-file token and changes nothing. */
  lemma EofForever(src: seq<Byte>, len: nat, s: LexState)
    requires SrcOk(src, len) && Sane(s) && s.start > len
    ensures NextSpec(src, len, s) == (EofToken(), s)
  {
  }

  /** A source that is whitespace from `start` on (an empty one included) yields end of file at once. */
  lemma WhitespaceOnlyIsEof(src: seq<Byte>, len: nat, s: LexState)
    requires SrcOk(src, len) && Fresh(s) && Blanks(src, s.start, len)
    ensures NextSpec(src, len, s).0 == EofToken()
    ensures s.start <= len ==> NextSpec(src, len, s).1.start == len + 1
  {
    if s.start <= len {
      NextTokenShape(src, len, s);
    }
  }

  /**
   * Skipping one whitespace byte outside a lexeme: a newline moves to column 1 of the next line,
   * any other blank byte one column to the right, and the call goes on as if it started there.
   */
  lemma SkipBlank(src: seq<Byte>, len: nat, s: LexState)
    requires SrcOk(src, len) && Fresh(s) && s.start < len && IsSpace(src[s.start])
    ensures var s1 := if src[s.start] == '\n' then s.(line := s.line + 1, column := 1) else s.(column := s.column + 1);
      NextSpec(src, len, s) == NextSpec(src, len, s1.(start := s.start + 1, end := s.start + 1))
  {
    NextSpecScans(src, len, s);
    ScanIterates(src, len, s.start, PendingMode, s);
    var s1 := if src[s.start] == '\n' then s.(line := s.line + 1, column := 1) else s.(column := s.column + 1);
    NextSpecScans(src, len, s1.(start := s.start + 1, end := s.start + 1));
  }
}
