/**
 * The glue loop of `check_src` in tests/parser_test.c: tokens from a lexer go to the parser,
 * comments are skipped, an Invalid token rejects, and the loop stops at the first step that is
 * not Idle. The source loop has no bound: here it runs on a budget of `fuel` lexer calls, and
 * `CheckSrcTerminates` gives a budget that always suffices for tables that never shift at end of file.
 */
module ParserDriver {
  import opened Wrappers
  import opened Bytes
  import opened Lexer
  import opened LexerProperties
  import opened Grammar
  import opened ParseTrees
  import opened Slr

  /** The tokens of `k` successive calls of `lexer_next_token` from lexer state `s`. */
  function Calls(src: seq<Byte>, len: nat, s: LexState, k: nat): (toks: seq<Token>)
    requires SrcOk(src, len) && Sane(s)
    ensures |toks| == k
    decreases k
  {
    if k == 0 then []
    else
      var next := NextSpec(src, len, s);
      [next.0] + Calls(src, len, next.1, k - 1)
  }

  /**
   * The loop over the tokens `toks`, with the parser state initialised: the outcome of the
   * step that ended it, or None when the tokens run out first.
   */
  function Drive(tb: Tables, toks: seq<Token>, c: Config): (r: Option<(ParserState, Config)>)
    requires Inv(tb, c)
    ensures r.Some? ==> r.value.0 != Idle
  {
    if toks == [] then None
    else
      var tok := toks[0];
      if tok.kind == Comment then Drive(tb, toks[1..], c)
      else if tok.kind == Invalid then Some((Reject, c))
      else
        var r := StepSpec(tb, c, tok);
        StepOutcome(tb, c, tok);
        if r.0 == Idle then Drive(tb, toks[1..], r.1) else Some(r)
  }

  /** `check_src`'s verdict: a passing source must be accepted with a single tree, a failing one must not be accepted. */
  function Verdict(r: (ParserState, Config), expectedPass: bool): bool {
    if expectedPass then r.0 == Accept && |r.1.forest| == 1 else r.0 != Accept
  }

  /** No state of the tables shifts on the end-of-file column. */
  ghost predicate EofNeverShifts(tb: Tables) {
    forall s :: 0 <= s < |tb.shiftReduce| && |tb.shiftReduce[s]| == NUM_TERMINAL_COLUMNS ==>
      tb.shiftReduce[s][TerminalColumn(Eof)].ty != ShiftOp
  }

  /** A step ends Idle only through a shift cell in the token's column. */
  lemma {:induction false} IdleOnlyByShift(tb: Tables, c: Config, tok: Token)
    requires Inv(tb, c) && HasColumn(tok.kind) && StepSpec(tb, c, tok).0 == Idle
    ensures exists s :: 0 <= s < |tb.shiftReduce| && ShiftReduceGet(tb, s, tok.kind).ty == ShiftOp
    decreases Weight(c.stack)
  {
    var s := Top(c.stack).state;
    var op := ShiftReduceGet(tb, s, tok.kind);
    if op.ty != ShiftOp {
      ProductionsReducible(op.value);
      var red := Reduce(tb, c, Productions()[op.value], op.value);
      IdleOnlyByShift(tb, red.1, tok);
    }
  }

  /** With tables that never shift at end of file, the loop ends at the latest on an end-of-file token. */
  lemma {:induction false} DriveTerminates(tb: Tables, toks: seq<Token>, c: Config, i: nat)
    requires Inv(tb, c) && EofNeverShifts(tb) && i < |toks| && toks[i].kind == Eof
    ensures Drive(tb, toks, c).Some?
    decreases i
  {
    var tok := toks[0];
    if tok.kind == Eof {
      if StepSpec(tb, c, tok).0 == Idle {
        IdleOnlyByShift(tb, c, tok);
        assert false;
      }
    } else if tok.kind == Comment {
      DriveTerminates(tb, toks[1..], c, i - 1);
    } else if tok.kind != Invalid {
      var r := StepSpec(tb, c, tok);
      StepOutcome(tb, c, tok);
      if r.0 == Idle {
        DriveTerminates(tb, toks[1..], r.1, i - 1);
      }
    }
  }

  /** Every non-end-of-file call moves `start` forward, so calls covering the bytes left include an end-of-file token. */
  lemma {:induction false} CallsReachEof(src: seq<Byte>, len: nat, s: LexState, k: nat) returns (i: nat)
    requires SrcOk(src, len) && Sane(s) && k >= 1 && k + s.start >= len + 2
    ensures i < k && Calls(src, len, s, k)[i].kind == Eof
    decreases k
  {
    var next := NextSpec(src, len, s);
    if next.0.kind == Eof {
      i := 0;
    } else {
      var j := CallsReachEof(src, len, next.1, k - 1);
      i := j + 1;
    }
  }

  /**
   * `check_src` terminates, with tables that never shift at end of file, within one lexer call
   * per byte of the text and its NUL, plus the end-of-file call.
   */
  lemma CheckSrcTerminates(tb: Tables, text: seq<Byte>, fuel: nat)
    requires WellFormed(tb) && EofNeverShifts(tb) && fuel >= |text| + 2
    ensures var src := text + ['\0'];
      && SrcOk(src, StrLen(src))
      && Drive(tb, Calls(src, StrLen(src), InitState(), fuel), InitConfig()).Some?
  {
    var src := text + ['\0'];
    assert src[|text|] == '\0';
    InitOk(tb);
    var i := CallsReachEof(src, StrLen(src), InitState(), fuel);
    DriveTerminates(tb, Calls(src, StrLen(src), InitState(), fuel), InitConfig(), i);
  }

  /** How the loop of `check_src` as written ends: with a state, by reading `state` before any assignment, or out of tokens. */
  datatype Outcome = Finished(state: ParserState, config: Config) | ReadsUninitialised | OutOfTokens

  /**
   * The loop exactly as written, where `state` starts unassigned (`None`): a Comment's `continue`
   * jumps to the test `state == PARSER_IDLE`, which reads `state` before the first step sets it.
   */
  function DriveAsWritten(tb: Tables, toks: seq<Token>, c: Config, state: Option<ParserState>): (r: Outcome)
    requires Inv(tb, c)
    ensures r.Finished? ==> r.state != Idle
  {
    if toks == [] then OutOfTokens
    else
      var tok := toks[0];
      if tok.kind == Comment then
        if state.None? then ReadsUninitialised
        else if state.value == Idle then DriveAsWritten(tb, toks[1..], c, state)
        else Finished(state.value, c)
      else if tok.kind == Invalid then Finished(Reject, c)
      else
        var r := StepSpec(tb, c, tok);
        StepOutcome(tb, c, tok);
        if r.0 == Idle then DriveAsWritten(tb, toks[1..], r.1, Some(Idle)) else Finished(r.0, r.1)
  }

  /** `[]` lexes to a Comment first. */
  lemma EmptyCommentFirst()
    ensures var src: seq<Byte> := ['[', ']', '\0'];
      && SrcOk(src, 2) && NextSpec(src, 2, InitState()).0.kind == Comment
  {
    var src: seq<Byte> := ['[', ']', '\0'];
    NextTokenShape(src, 2, InitState());
  }

  /** As written, a source that begins with a comment, such as `[]`, reads `state` uninitialised, whatever the tables. */
  lemma LeadingCommentReadsUninitialised(tb: Tables, fuel: nat)
    requires WellFormed(tb) && fuel >= 1
    ensures var src: seq<Byte> := ['[', ']', '\0'];
      && SrcOk(src, 2) && Inv(tb, InitConfig())
      && DriveAsWritten(tb, Calls(src, 2, InitState(), fuel), InitConfig(), None) == ReadsUninitialised
  {
    EmptyCommentFirst();
    InitOk(tb);
  }

  /**
   * Once `state` holds Idle, the loop as written is `Drive`; so is it from the start whenever the
   * first token is not a Comment. `Drive` is the loop with `state` initialised to Idle.
   */
  lemma {:induction false} AsWrittenAgrees(tb: Tables, toks: seq<Token>, c: Config)
    requires Inv(tb, c)
    ensures var d := Drive(tb, toks, c);
      DriveAsWritten(tb, toks, c, Some(Idle)) == if d.None? then OutOfTokens else Finished(d.value.0, d.value.1)
    ensures toks == [] || toks[0].kind != Comment ==> DriveAsWritten(tb, toks, c, None) == DriveAsWritten(tb, toks, c, Some(Idle))
    decreases |toks|
  {
    if toks != [] {
      var tok := toks[0];
      if tok.kind == Comment {
        AsWrittenAgrees(tb, toks[1..], c);
      } else if tok.kind != Invalid {
        var r := StepSpec(tb, c, tok);
        StepOutcome(tb, c, tok);
        if r.0 == Idle {
          AsWrittenAgrees(tb, toks[1..], r.1);
        }
      }
    }
  }

  /** `check_src` on `text` with tables `tb`: the verdict, or None when `fuel` tokens did not finish the loop. */
  method CheckSrc(text: seq<Byte>, tb: Tables, expectedPass: bool, fuel: nat) returns (verdict: Option<bool>)
    requires WellFormed(tb)
    ensures var src := text + ['\0'];
      && SrcOk(src, StrLen(src))
      && var r := Drive(tb, Calls(src, StrLen(src), InitState(), fuel), InitConfig());
      verdict == if r.None? then None else Some(Verdict(r.value, expectedPass))
  {
    var lexer := new Lexer(text);
    var parser := new SlrParser(tb);
    var state: ParserState := Idle;
    var stop := false;
    var n := fuel;
    ghost var goal := Drive(tb, Calls(lexer.src, lexer.len, InitState(), fuel), InitConfig());
    while n > 0 && !stop
      invariant lexer.Valid() && parser.forest != null && parser.tables == tb
      invariant fresh(lexer.dfa) && fresh(parser.forest)
      invariant !stop ==> state == Idle && parser.Valid() && Drive(tb, Calls(lexer.src, lexer.len, lexer.State(), n), parser.State()) == goal
      invariant stop ==> state != Idle && goal == Some((state, parser.State()))
      decreases n
    {
      stop, state := Pass(lexer, parser, n - 1);
      n := n - 1;
    }
    if !stop {
      return None;
    }
    var tree := parser.TakeParseTree();
    var treeCheck := |tree.root.children| == 1;
    verdict := Some(if expectedPass then state == Accept && treeCheck else state != Accept);
  }

  /**
   * One pass of the `do ... while (state == PARSER_IDLE)` body: the next token is skipped, rejects,
   * or goes to the parser; `stop` says the loop ends with `state`.
   */
  method Pass(lexer: Lexer, parser: SlrParser, ghost n: nat) returns (stop: bool, state: ParserState)
    requires lexer.Valid() && parser.Valid()
    modifies lexer, lexer.dfa, parser, parser.forest
    ensures lexer.Valid() && parser.forest == old(parser.forest)
    ensures var goal := Drive(parser.tables, Calls(lexer.src, lexer.len, old(lexer.State()), n + 1), old(parser.State()));
      if stop then state != Idle && goal == Some((state, parser.State()))
      else state == Idle && parser.Valid() && goal == Drive(parser.tables, Calls(lexer.src, lexer.len, lexer.State(), n), parser.State())
  {
    var tok := lexer.NextToken();
    if tok.kind == Comment {
      return false, Idle;
    }
    if tok.kind == Invalid {
      return true, Reject;
    }
    StepOutcome(parser.tables, parser.State(), tok);
    state := parser.Step(tok);
    stop := state != Idle;
  }
}
