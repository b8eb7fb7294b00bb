/**
 * The lexing outcomes the test suites assert, proved about `Lex`: the fuzz test joins random
 * keyword, identifier, literal, punctuation and whitespace pieces, where a word-like piece is
 * always followed by whitespace or punctuation, and expects one token per non-whitespace piece;
 * the Rust binding's unit test expects `"abc"` to be one token. The table test of the automaton
 * and two splitting quirks (`1a` and `a_b`) are stated here as well.
 */
module LexerPieces {
  import opened Wrappers
  import opened Bytes
  import opened Automaton
  import opened LexerTable
  import opened Lexer
  import opened LexerProperties

  /** `[a-zA-Z][a-zA-Z0-9]*`: identifiers, and with them `T`, `F`, `bool`, `nat` and `fun`. */
  predicate IsIdentPiece(w: seq<Byte>) {
    |w| >= 1 && IsAlpha(w[0]) && forall i :: 1 <= i < |w| ==> IsAlnum(w[i])
  }

  /** `0|[1-9][0-9]*`. */
  predicate IsNatPiece(w: seq<Byte>) {
    w == "0" || (|w| >= 1 && '1' <= w[0] <= '9' && forall i :: 1 <= i < |w| ==> IsDigit(w[i]))
  }

  /** `[\r\n\t\f\v ]+`. */
  predicate IsWhitespacePiece(w: seq<Byte>) {
    |w| >= 1 && forall i :: 0 <= i < |w| ==> IsSpace(w[i])
  }

  /** `[\?:;()+&<=]|->`. */
  predicate IsPunctuationPiece(w: seq<Byte>) {
    (|w| == 1 && IsPunct(w[0])) || w == "->"
  }

  predicate IsWordPiece(w: seq<Byte>) {
    IsIdentPiece(w) || IsNatPiece(w)
  }

  predicate IsPiece(w: seq<Byte>) {
    IsWordPiece(w) || IsWhitespacePiece(w) || IsPunctuationPiece(w)
  }

  /** What the fuzz generator produces: pieces, where no word-like piece is directly followed by another. */
  predicate Generated(ps: seq<seq<Byte>>) {
    && (forall i :: 0 <= i < |ps| ==> IsPiece(ps[i]))
    && (forall i :: 0 <= i < |ps| - 1 ==> IsWordPiece(ps[i]) ==> !IsWordPiece(ps[i + 1]))
  }

  /** `src_tokens.join("")`. */
  function Join(ps: seq<seq<Byte>>): seq<Byte> {
    if ps == [] then [] else ps[0] + Join(ps[1..])
  }

  /** The pieces that are not all whitespace, in order. */
  function NonBlank(ps: seq<seq<Byte>>): seq<seq<Byte>> {
    if ps == [] then [] else (if IsWhitespacePiece(ps[0]) then [] else [ps[0]]) + NonBlank(ps[1..])
  }

  /** The lexemes of a token sequence, in order. */
  function Lexemes(ts: seq<Token>): (r: seq<seq<Byte>>)
    ensures |r| == |ts|
  {
    if ts == [] then [] else [ts[0].lexeme] + Lexemes(ts[1..])
  }

  /** Every token is of the kind `get_token_type` gives its lexeme: none is Invalid or Eof. */
  predicate Classified(ts: seq<Token>) {
    forall i :: 0 <= i < |ts| ==> ts[i].kind == GetTokenType(ts[i].lexeme)
  }

  /** The byte after `j`, as `lexer_next_token` peeks it, is the next byte of the buffer. */
  lemma PeekIsNext(src: seq<Byte>, len: nat, j: nat)
    requires SrcOk(src, len) && j < len
    ensures Peek(src, len, j) == src[j + 1]
  {
  }

  /** One iteration on a byte that is fed to the automaton: it ends the lexeme or extends it by one byte. */
  lemma IterateFeeds(src: seq<Byte>, len: nat, cursor: nat, mode: Mode, m: Mode, s: LexState)
    requires SrcOk(src, len) && Sane(s) && s.start <= cursor <= len
    requires NextMode(mode, src[cursor]) == m && (m == CommentMode || !IsBlank(src[cursor]))
    ensures var a := Iterate(src, len, cursor, mode, s);
      if NeedToCheckDfa(src[cursor], Peek(src, len, cursor), m) then a.Done? && a.state.start == s.end + 1
      else a.Continue? && a.mode == m && a.state.end == s.end + 1
  {
  }

  /**
   * From `cursor`, the loop feeds `src[cursor..e]` in mode `m` without skipping or ending the
   * lexeme, and ends it at `e`: the next call starts just after `e`.
   */
  lemma {:induction false} ScanFeeds(src: seq<Byte>, len: nat, cursor: nat, e: nat, mode: Mode, m: Mode, s: LexState)
    requires SrcOk(src, len) && Sane(s) && s.start <= cursor <= e < len
    requires NextMode(mode, src[cursor]) == m
    requires forall j :: cursor < j <= e ==> NextMode(m, src[j]) == m
    requires forall j :: cursor <= j <= e ==> m == CommentMode || !IsBlank(src[j])
    requires forall j :: cursor <= j < e ==> !NeedToCheckDfa(src[j], Peek(src, len, j), m)
    requires NeedToCheckDfa(src[e], Peek(src, len, e), m)
    ensures Scan(src, len, cursor, mode, s).0.kind != Eof
    ensures Scan(src, len, cursor, mode, s).1.start == s.end + (e - cursor) + 1
    decreases e - cursor
  {
    ScanIterates(src, len, cursor, mode, s);
    IterateFeeds(src, len, cursor, mode, m, s);
    if cursor < e {
      var a := Iterate(src, len, cursor, mode, s);
      ScanFeeds(src, len, cursor + 1, e, m, m, a.state);
    }
  }

  /** An identifier piece ends before the first byte that is not a letter or digit. */
  lemma IdentEnds(src: seq<Byte>, len: nat, s: LexState, n: nat)
    requires SrcOk(src, len) && Fresh(s) && 1 <= n && s.start + n <= len
    requires IsIdentPiece(src[s.start..s.start + n]) && !IsAlnum(src[s.start + n])
    ensures Scan(src, len, s.start, PendingMode, s).1.start == s.start + n
    ensures Scan(src, len, s.start, PendingMode, s).0.kind != Eof
  {
    var p, e := s.start, s.start + n - 1;
    assert forall j :: p < j <= e ==> IsAlnum(src[j]) by {
      forall j | p < j <= e ensures IsAlnum(src[j]) {
        assert src[j] == src[p..p + n][j - p];
      }
    }
    assert IsAlpha(src[p]) by {
      assert src[p] == src[p..p + n][0];
    }
    forall j | p <= j <= e {
      PeekIsNext(src, len, j);
    }
    ScanFeeds(src, len, p, e, PendingMode, IdentifierMode, s);
  }

  /** A numeral piece ends before the first byte that is not a digit. */
  lemma NatEnds(src: seq<Byte>, len: nat, s: LexState, n: nat)
    requires SrcOk(src, len) && Fresh(s) && 1 <= n && s.start + n <= len
    requires IsNatPiece(src[s.start..s.start + n]) && !IsDigit(src[s.start + n])
    ensures Scan(src, len, s.start, PendingMode, s).1.start == s.start + n
    ensures Scan(src, len, s.start, PendingMode, s).0.kind != Eof
  {
    var p, e := s.start, s.start + n - 1;
    assert forall j :: p <= j <= e ==> IsDigit(src[j]) by {
      forall j | p <= j <= e ensures IsDigit(src[j]) {
        assert src[j] == src[p..p + n][j - p];
      }
    }
    forall j | p <= j <= e {
      PeekIsNext(src, len, j);
    }
    ScanFeeds(src, len, p, e, PendingMode, NumberMode, s);
  }

  /** A punctuation piece ends with its last byte. */
  lemma PunctEnds(src: seq<Byte>, len: nat, s: LexState, n: nat)
    requires SrcOk(src, len) && Fresh(s) && 1 <= n && s.start + n <= len
    requires IsPunctuationPiece(src[s.start..s.start + n])
    ensures Scan(src, len, s.start, PendingMode, s).1.start == s.start + n
    ensures Scan(src, len, s.start, PendingMode, s).0.kind != Eof
  {
    var p := s.start;
    var w := src[p..p + n];
    assert src[p] == w[0];
    PeekIsNext(src, len, p);
    if n == 2 {
      assert src[p + 1] == w[1];
      PeekIsNext(src, len, p + 1);
    }
    ScanFeeds(src, len, p, p + n - 1, PendingMode, PendingMode, s);
  }

  /** The lexeme `src[s.start..s.start + n]` ends where a piece of its shape ends. */
  lemma PieceEnds(src: seq<Byte>, len: nat, s: LexState, n: nat)
    requires SrcOk(src, len) && Fresh(s) && 1 <= n && s.start + n <= len
    requires var w := src[s.start..s.start + n];
      || (IsIdentPiece(w) && !IsAlnum(src[s.start + n]))
      || (IsNatPiece(w) && !IsDigit(src[s.start + n]))
      || IsPunctuationPiece(w)
    ensures NextSpec(src, len, s).0.kind != Eof
    ensures NextSpec(src, len, s).1.start == s.start + n
  {
    NextSpecScans(src, len, s);
    var w := src[s.start..s.start + n];
    if IsIdentPiece(w) && !IsAlnum(src[s.start + n]) {
      IdentEnds(src, len, s, n);
    } else if IsNatPiece(w) && !IsDigit(src[s.start + n]) {
      NatEnds(src, len, s, n);
    } else {
      PunctEnds(src, len, s, n);
    }
  }

  /** The first position from `i` on that holds no letter or digit, or the end of the buffer. */
  function AlnumRunEnd(src: seq<Byte>, i: nat): (e: nat)
    requires i <= |src|
    ensures i <= e <= |src|
    ensures forall j :: i <= j < e ==> IsAlnum(src[j])
    ensures e < |src| ==> !IsAlnum(src[e])
    decreases |src| - i
  {
    if i < |src| && IsAlnum(src[i]) then AlnumRunEnd(src, i + 1) else i
  }

  /** The first position from `i` on that holds no digit, or the end of the buffer. */
  function DigitRunEnd(src: seq<Byte>, i: nat): (e: nat)
    requires i <= |src|
    ensures i <= e <= |src|
    ensures forall j :: i <= j < e ==> IsDigit(src[j])
    ensures e < |src| ==> !IsDigit(src[e])
    decreases |src| - i
  {
    if i < |src| && IsDigit(src[i]) then DigitRunEnd(src, i + 1) else i
  }

  /**
   * Where a lexeme that starts at `src[p]` ends, by the classes of the bytes alone: a letter
   * starts a run of letters and digits, a digit a run of digits, `->` is two bytes, and every
   * other byte is a lexeme of its own.
   */
  function LexemeEnd(src: seq<Byte>, p: nat): (e: nat)
    requires p < |src|
    ensures p < e <= |src|
  {
    if IsAlpha(src[p]) then AlnumRunEnd(src, p + 1)
    else if IsDigit(src[p]) then DigitRunEnd(src, p + 1)
    else if src[p] == '-' && p + 1 < |src| && src[p + 1] == '>' then p + 2
    else p + 1
  }

  /** A lexeme led by a letter is scanned in identifier mode up to the end of its run of letters and digits. */
  lemma WordScanned(src: seq<Byte>, len: nat, s: LexState)
    requires SrcOk(src, len) && Fresh(s) && s.start < len && IsAlpha(src[s.start])
    ensures var e := AlnumRunEnd(src, s.start + 1); var r := Scan(src, len, s.start, PendingMode, s);
      e <= len && r.0.kind != Eof && r.1.start == e
  {
    var p, e := s.start, AlnumRunEnd(src, s.start + 1);
    assert e <= len;
    forall j | p <= j < e {
      PeekIsNext(src, len, j);
    }
    ScanFeeds(src, len, p, e - 1, PendingMode, IdentifierMode, s);
  }

  /** A lexeme led by a digit is scanned in number mode up to the end of its run of digits. */
  lemma NumeralScanned(src: seq<Byte>, len: nat, s: LexState)
    requires SrcOk(src, len) && Fresh(s) && s.start < len && IsDigit(src[s.start])
    ensures var e := DigitRunEnd(src, s.start + 1); var r := Scan(src, len, s.start, PendingMode, s);
      e <= len && r.0.kind != Eof && r.1.start == e
  {
    var p, e := s.start, DigitRunEnd(src, s.start + 1);
    assert e <= len;
    forall j | p <= j < e {
      PeekIsNext(src, len, j);
    }
    ScanFeeds(src, len, p, e - 1, PendingMode, NumberMode, s);
  }

  /** Any other lexeme but a comment is `->` or a single byte, scanned in the pending mode. */
  lemma OtherScanned(src: seq<Byte>, len: nat, s: LexState)
    requires SrcOk(src, len) && Fresh(s) && s.start < len
    requires var c := src[s.start]; !IsSpace(c) && c != '[' && !IsAlpha(c) && !IsDigit(c)
    ensures var e := LexemeEnd(src, s.start); var r := Scan(src, len, s.start, PendingMode, s);
      e <= len && r.0.kind != Eof && r.1.start == e
  {
    var p, e := s.start, LexemeEnd(src, s.start);
    PeekIsNext(src, len, p);
    if e == p + 2 {
      PeekIsNext(src, len, p + 1);
    }
    ScanFeeds(src, len, p, e - 1, PendingMode, PendingMode, s);
  }

  /**
   * The boundary rule of `need_to_check_dfa`, with the mode the loop picks from the first byte,
   * ends a lexeme that does not open a comment exactly at `LexemeEnd`: the token is the slice up
   * to there, and the next call resumes fresh just after it.
   */
  lemma NextLexeme(src: seq<Byte>, len: nat, s: LexState)
    requires SrcOk(src, len) && Fresh(s) && s.start < len
    requires !IsSpace(src[s.start]) && src[s.start] != '['
    ensures var e := LexemeEnd(src, s.start); var r := NextSpec(src, len, s);
      && e <= len && r.0.kind != Eof && r.0.lexeme == src[s.start..e]
      && Fresh(r.1) && r.1.start == e
  {
    var c := src[s.start];
    if IsAlpha(c) {
      WordScanned(src, len, s);
    } else if IsDigit(c) {
      NumeralScanned(src, len, s);
    } else {
      OtherScanned(src, len, s);
    }
    NextSpecScans(src, len, s);
    NextTokenShape(src, len, s);
  }

  /** Word-like and punctuation pieces are accepted by the automaton. */
  lemma PieceAccepted(w: seq<Byte>)
    requires IsWordPiece(w) || IsPunctuationPiece(w)
    ensures Accepting(RunFrom(START, w))
  {
    AcceptsExactly(w);
    assert !StaysAtStart(w[0]);
    if IsIdentPiece(w) {
      assert WordShape(w);
    }
  }

  /** A piece followed by a byte that cannot continue it is lexed as one token of its own kind. */
  lemma EmitPiece(src: seq<Byte>, len: nat, s: LexState, n: nat)
    requires SrcOk(src, len) && Fresh(s) && 1 <= n && s.start + n <= len
    requires var w := src[s.start..s.start + n];
      || (IsIdentPiece(w) && !IsAlnum(src[s.start + n]))
      || (IsNatPiece(w) && !IsDigit(src[s.start + n]))
      || IsPunctuationPiece(w)
    ensures var r := NextSpec(src, len, s);
      && r.0.lexeme == src[s.start..s.start + n] && r.0.kind == GetTokenType(r.0.lexeme)
      && Fresh(r.1) && r.1.start == s.start + n
  {
    PieceEnds(src, len, s, n);
    NextTokenShape(src, len, s);
    var r := NextSpec(src, len, s);
    assert r.0.span.value.start == s.start by {
      var w := src[s.start..s.start + n];
      assert w[0] == src[s.start];
      VisibleStart(w);
    }
    PieceAccepted(src[s.start..s.start + n]);
  }

  /** A word or punctuation piece does not start with a blank. */
  lemma VisibleStart(w: seq<Byte>)
    requires IsWordPiece(w) || IsPunctuationPiece(w)
    ensures |w| >= 1 && !IsSpace(w[0])
  {
    if w == "0" || w == "->" {
      assert w[0] == '0' || w[0] == '-';
    }
  }

  /** Skipping the whitespace `src[s.start..k]` before a lexeme leads to a fresh state at `k`. */
  lemma {:induction false} SkipBlanks(src: seq<Byte>, len: nat, s: LexState, k: nat) returns (s1: LexState)
    requires SrcOk(src, len) && Fresh(s) && s.start <= k <= len && Blanks(src, s.start, k)
    ensures Fresh(s1) && s1.start == k
    ensures NextSpec(src, len, s) == NextSpec(src, len, s1)
    decreases k - s.start
  {
    if s.start == k {
      return s;
    }
    SkipBlank(src, len, s);
    var t := if src[s.start] == '\n' then s.(line := s.line + 1, column := 1) else s.(column := s.column + 1);
    s1 := SkipBlanks(src, len, t.(start := s.start + 1, end := s.start + 1), k);
  }

  /** Two states with the same next call give the same remaining tokens. */
  lemma TokenizeSame(src: seq<Byte>, len: nat, s: LexState, s1: LexState)
    requires SrcOk(src, len) && Sane(s) && Sane(s1) && NextSpec(src, len, s) == NextSpec(src, len, s1)
    ensures Tokenize(src, len, s) == Tokenize(src, len, s1)
  {
  }

  lemma PieceHasNoNul(w: seq<Byte>)
    requires IsPiece(w)
    ensures forall i :: 0 <= i < |w| ==> w[i] != '\0'
  {
  }

  lemma {:induction false} NoNulInPieces(ps: seq<seq<Byte>>)
    requires forall i :: 0 <= i < |ps| ==> IsPiece(ps[i])
    ensures '\0' !in Join(ps)
  {
    if ps != [] {
      NoNulInPieces(ps[1..]);
      PieceHasNoNul(ps[0]);
      assert Join(ps) == ps[0] + Join(ps[1..]);
    }
  }

  /** A whitespace piece is skipped. */
  lemma WhitespacePiece(src: seq<Byte>, len: nat, s: LexState, n: nat) returns (s1: LexState)
    requires SrcOk(src, len) && Fresh(s) && s.start + n <= len
    requires IsWhitespacePiece(src[s.start..s.start + n])
    ensures Fresh(s1) && s1.start == s.start + n
    ensures Tokenize(src, len, s) == Tokenize(src, len, s1)
  {
    var p := s.start;
    var w := src[p..p + n];
    assert Blanks(src, p, p + n) by {
      assert |w| == n && IsWhitespacePiece(w);
      forall j | p <= j < p + n ensures j < |src| && IsSpace(src[j]) {
        var i := j - p;
        assert 0 <= i < |w|;
        assert IsSpace(w[i]);
        assert w[i] == src[j];
      }
    }
    s1 := SkipBlanks(src, len, s, p + n);
    TokenizeSame(src, len, s, s1);
  }

  /** The pieces after the first one lie just after it in the source. */
  lemma SplitFirst(src: seq<Byte>, len: nat, p: nat, qs: seq<seq<Byte>>)
    requires p <= len < |src| && qs != [] && src[p..len] == Join(qs)
    ensures p + |qs[0]| <= len
    ensures src[p..p + |qs[0]|] == qs[0] && src[p + |qs[0]|..len] == Join(qs[1..])
  {
    var n := |qs[0]|;
    assert Join(qs) == qs[0] + Join(qs[1..]);
    assert src[p..len][..n] == qs[0] && src[p..len][n..] == Join(qs[1..]);
  }

  lemma ConsToken(t: Token, ts: seq<Token>)
    requires t.kind == GetTokenType(t.lexeme) && Classified(ts)
    ensures Lexemes([t] + ts) == [t.lexeme] + Lexemes(ts) && Classified([t] + ts)
  {
    assert ([t] + ts)[1..] == ts;
  }

  /** A word-like or punctuation piece first in `qs` is the next token, and lexing goes on after it. */
  lemma TokenPiece(src: seq<Byte>, len: nat, qs: seq<seq<Byte>>, s: LexState) returns (t: Token, s1: LexState)
    requires SrcOk(src, len) && Fresh(s) && s.start <= len
    requires qs != [] && src[s.start..len] == Join(qs) && Generated(qs) && !IsWhitespacePiece(qs[0])
    ensures t.lexeme == qs[0] && t.kind == GetTokenType(t.lexeme)
    ensures Fresh(s1) && s1.start <= len && src[s1.start..len] == Join(qs[1..])
    ensures Tokenize(src, len, s) == [t] + Tokenize(src, len, s1)
  {
    var p, n := s.start, |qs[0]|;
    SplitFirst(src, len, p, qs);
    assert IsWordPiece(qs[0]) ==> !IsAlnum(src[p + n]) by {
      if IsWordPiece(qs[0]) && |qs| > 1 {
        assert !IsWordPiece(qs[1]);
        SplitFirst(src, len, p + n, qs[1..]);
        assert src[p + n] == qs[1][0];
      }
    }
    EmitPiece(src, len, s, n);
    t, s1 := NextSpec(src, len, s).0, NextSpec(src, len, s).1;
  }

  /** From a fresh state at the start of the pieces `qs`, one token per non-whitespace piece. */
  lemma {:induction false} TokenizePieces(src: seq<Byte>, len: nat, qs: seq<seq<Byte>>, s: LexState)
    requires SrcOk(src, len) && Fresh(s) && s.start <= len
    requires src[s.start..len] == Join(qs)
    requires Generated(qs)
    ensures var ts := Tokenize(src, len, s); Lexemes(ts) == NonBlank(qs) && Classified(ts)
    decreases |qs|
  {
    if qs == [] {
      WhitespaceOnlyIsEof(src, len, s);
      return;
    }
    assert Generated(qs[1..]);
    if IsWhitespacePiece(qs[0]) {
      SplitFirst(src, len, s.start, qs);
      var s1 := WhitespacePiece(src, len, s, |qs[0]|);
      TokenizePieces(src, len, qs[1..], s1);
    } else {
      var t, s1 := TokenPiece(src, len, qs, s);
      TokenizePieces(src, len, qs[1..], s1);
      ConsToken(t, Tokenize(src, len, s1));
    }
  }

  /**
   * The fuzz test: lexing joined generated pieces gives exactly the non-whitespace pieces as
   * lexemes, in order, each classified by `get_token_type` (in particular as many tokens as
   * non-whitespace pieces, which is what the test compares).
   */
  lemma FuzzTokens(ps: seq<seq<Byte>>)
    requires Generated(ps)
    ensures '\0' !in Join(ps)
    ensures Lexemes(Lex(Join(ps))) == NonBlank(ps) && Classified(Lex(Join(ps)))
  {
    NoNulInPieces(ps);
    var text := Join(ps);
    var src := text + ['\0'];
    assert SrcOk(src, |text|);
    assert src[0..|text|] == text;
    TokenizePieces(src, |text|, ps, InitState());
  }

  /** The Rust binding's unit test: `"abc"` is exactly one token. */
  lemma AbcIsOneToken()
    ensures |Lex("abc")| == 1
  {
    assert Join(["abc"]) == "abc";
    FuzzTokens(["abc"]);
  }

  /** A byte that is no letter, digit, blank, `[` or `-` is a lexeme on its own. */
  lemma EmitSingle(src: seq<Byte>, len: nat, s: LexState)
    requires SrcOk(src, len) && Fresh(s) && s.start < len
    requires var c := src[s.start]; !IsAlnum(c) && !IsBlank(c) && c != '[' && c != '-'
    ensures var r := NextSpec(src, len, s);
      && r.0.lexeme == [src[s.start]] && (r.0.kind == Invalid <==> !Accepting(Step(START, src[s.start])))
      && Fresh(r.1) && r.1.start == s.start + 1
  {
    NextSpecScans(src, len, s);
    ScanFeeds(src, len, s.start, s.start, PendingMode, PendingMode, s);
    NextTokenShape(src, len, s);
    RunFromOne(src[s.start]);
    assert src[s.start..s.start + 1] == [src[s.start]];
  }

  /** No more tokens once only whitespace is left. */
  lemma TokenizeAtEnd(src: seq<Byte>, len: nat, s: LexState)
    requires SrcOk(src, len) && Fresh(s) && s.start == len
    ensures Tokenize(src, len, s) == []
  {
    WhitespaceOnlyIsEof(src, len, s);
  }

  /** A piece at a fresh state is the next token, and tokenizing carries on right after it. */
  lemma PieceThenRest(src: seq<Byte>, len: nat, s: LexState, n: nat) returns (t: Token, s1: LexState)
    requires SrcOk(src, len) && Fresh(s) && 1 <= n && s.start + n <= len
    requires var w := src[s.start..s.start + n];
      || (IsIdentPiece(w) && !IsAlnum(src[s.start + n]))
      || (IsNatPiece(w) && !IsDigit(src[s.start + n]))
    ensures Fresh(s1) && s1.start == s.start + n
    ensures Tokenize(src, len, s) == [t] + Tokenize(src, len, s1)
    ensures t.lexeme == src[s.start..s.start + n] && t.kind == GetTokenType(t.lexeme)
  {
    EmitPiece(src, len, s, n);
    t, s1 := NextSpec(src, len, s).0, NextSpec(src, len, s).1;
  }

  /** A lone byte that neither starts a word, a comment nor an arrow is a token on its own. */
  lemma SingleThenRest(src: seq<Byte>, len: nat, s: LexState) returns (t: Token, s1: LexState)
    requires SrcOk(src, len) && Fresh(s) && s.start < len
    requires var c := src[s.start]; !IsAlnum(c) && !IsBlank(c) && c != '[' && c != '-'
    ensures Fresh(s1) && s1.start == s.start + 1
    ensures Tokenize(src, len, s) == [t] + Tokenize(src, len, s1)
    ensures t.lexeme == [src[s.start]] && (t.kind == Invalid <==> !Accepting(Step(START, src[s.start])))
  {
    EmitSingle(src, len, s);
    t, s1 := NextSpec(src, len, s).0, NextSpec(src, len, s).1;
  }

  lemma TokenizeNumeralLetter(src: seq<Byte>) returns (t0: Token, t1: Token)
    requires |src| == 3 && src[0] == '1' && src[1] == 'a' && src[2] == '\0'
    ensures SrcOk(src, 2) && Tokenize(src, 2, InitState()) == [t0, t1]
    ensures t0.lexeme == src[0..1] && t0.kind == GetTokenType(src[0..1])
    ensures t1.lexeme == src[1..2] && t1.kind == GetTokenType(src[1..2])
  {
    var s1, s2;
    t0, s1 := PieceThenRest(src, 2, InitState(), 1);
    t1, s2 := PieceThenRest(src, 2, s1, 1);
    TokenizeAtEnd(src, 2, s2);
  }

  /** `1a` splits into the literal `1` and the identifier `a`. */
  lemma NumeralThenLetterSplits()
    ensures Lexemes(Lex("1a")) == ["1", "a"]
    ensures Lex("1a")[0].kind == Literal && Lex("1a")[1].kind == Identifier
  {
    var src: seq<Byte> := "1a" + ['\0'];
    assert src[0..1] == "1" && src[1..2] == "a";
    var t0, t1 := TokenizeNumeralLetter(src);
    assert GetTokenType("1") == Literal;
    assert GetTokenType("a") == Identifier;
    assert Lexemes([t0, t1]) == [t0.lexeme] + Lexemes([t1]);
  }

  lemma TokenizeUnderscoreFrom(src: seq<Byte>, s1: LexState) returns (t1: Token, t2: Token)
    requires |src| == 4 && src[1] == '_' && src[2] == 'b' && src[3] == '\0'
    requires SrcOk(src, 3) && Fresh(s1) && s1.start == 1
    requires Step(START, src[1]) == START
    ensures Tokenize(src, 3, s1) == [t1, t2]
    ensures t1.lexeme == [src[1]] && t2.lexeme == src[2..3] && t1.kind == Invalid
  {
    var s2, s3;
    t1, s2 := SingleThenRest(src, 3, s1);
    t2, s3 := PieceThenRest(src, 3, s2, 1);
    TokenizeAtEnd(src, 3, s3);
  }

  lemma TokenizeUnderscore(src: seq<Byte>) returns (t0: Token, t1: Token, t2: Token)
    requires |src| == 4 && src[0] == 'a' && src[1] == '_' && src[2] == 'b' && src[3] == '\0'
    requires Step(START, src[1]) == START
    ensures SrcOk(src, 3) && Tokenize(src, 3, InitState()) == [t0, t1, t2]
    ensures t0.lexeme == src[0..1] && t1.lexeme == [src[1]] && t2.lexeme == src[2..3]
    ensures t1.kind == Invalid
  {
    var s1;
    t0, s1 := PieceThenRest(src, 3, InitState(), 1);
    t1, t2 := TokenizeUnderscoreFrom(src, s1);
  }

  /** `a_b` splits into `a`, an Invalid `_`, and `b`: `_` ends a lexeme although the table continues words on it. */
  lemma UnderscoreSplits()
    ensures Lexemes(Lex("a_b")) == ["a", "_", "b"]
    ensures Lex("a_b")[1].kind == Invalid
  {
    var src: seq<Byte> := "a_b" + ['\0'];
    assert src[0..1] == "a" && src[2..3] == "b";
    assert StaysAtStart('_');
    var t0, t1, t2 := TokenizeUnderscore(src);
    assert Lexemes([t0, t1, t2]) == [t0.lexeme] + Lexemes([t1, t2]);
    assert Lexemes([t1, t2]) == [t1.lexeme] + Lexemes([t2]);
  }

  /** A C string literal without NUL bytes is read back whole. */
  lemma {:induction false} CStringOfText(w: seq<Byte>)
    requires '\0' !in w
    ensures CString(w) == w
  {
    if w != [] {
      CStringOfText(w[1..]);
      assert w == [w[0]] + w[1..];
    }
  }

  /** What `dfa_matches` computes on the lexer table from the start state, for a NUL-free text. */
  lemma MatchesLexerTable(w: seq<Byte>)
    requires '\0' !in w
    ensures WellFormed(Table(), NUM_STATES)
    ensures Run(Table(), NUM_STATES, START, CString(w)) in ACCEPTS <==> Accepting(RunFrom(START, w))
  {
    CStringOfText(w);
    RunFromIsRun(START, w);
  }

  /** The four words of the table test: `abc` and `0` are accepted, `00` and `0 ` rejected. */
  lemma TableTestWords()
    ensures Accepting(RunFrom(START, "abc")) && Accepting(RunFrom(START, "0"))
    ensures !Accepting(RunFrom(START, "00")) && !Accepting(RunFrom(START, "0 "))
  {
    RunFromCons(START, "abc");
    assert "abc"[1..] == "bc";
    WordState("bc");
    RunFromCons(START, "0");
    assert "0"[1..] == [];
    RunFromCons(START, "00");
    assert "00"[1..] == "0";
    FinalStates(8, "0");
    RunFromCons(START, "0 ");
    assert "0 "[1..] == " ";
    FinalStates(8, " ");
  }

  /** `tests/dfa_test.c`: a fresh lexer automaton matches `abc` and `0`, and rejects `00` and `0 `. */
  method DfaTest() returns (abc: bool, zero: bool, zeroZero: bool, zeroSpace: bool)
    ensures abc && zero && !zeroZero && !zeroSpace
  {
    TableWellFormed();
    TableTestWords();
    var dfa := new Dfa(Table(), NUM_STATES, START, ACCEPTS);
    MatchesLexerTable("abc");
    abc := dfa.Matches("abc");
    MatchesLexerTable("0");
    zero := dfa.Matches("0");
    MatchesLexerTable("00");
    zeroZero := dfa.Matches("00");
    MatchesLexerTable("0 ");
    zeroSpace := dfa.Matches("0 ");
  }
}
