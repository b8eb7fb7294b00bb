/**
 * The tables of parser.h as shipped. `{{{SLR_EMPTY, 0}}}` initialises only the first cell of each
 * table; C fills every other cell with zeroes, and zero is `SLR_SHIFT`. So every cell but the first
 * is a shift to state 0, where an all-Empty table (what the initialiser evidently means) rejects.
 */
module ShippedTables {
  import opened Bytes
  import opened Lexer
  import opened LexerProperties
  import opened Grammar
  import opened Slr
  import opened ParserDriver

  const NUM_STATES: nat := 38

  const EMPTY_CELL: SlrOp := SlrOp(EmptyOp, 0)

  /** A table of `NUM_STATES` rows of `cols` cells: `first` in cell [0][0] and `rest` everywhere else. */
  function Table(cols: nat, first: SlrOp, rest: SlrOp): (t: seq<seq<SlrOp>>)
    ensures |t| == NUM_STATES
    ensures forall s :: 0 <= s < NUM_STATES ==> |t[s]| == cols
    ensures forall s, c :: 0 <= s < NUM_STATES && 0 <= c < cols ==> t[s][c] == if s == 0 && c == 0 then first else rest
  {
    seq(NUM_STATES, s => seq(cols, c => if s == 0 && c == 0 then first else rest))
  }

  /** `GOTO_TABLE` and `SHIFT_REDUCE_TABLE` as the initialiser `{{{SLR_EMPTY, 0}}}` writes them. */
  function AsShipped(): (tb: Tables)
    ensures WellFormed(tb)
  {
    Tables(Table(NUM_NONTERMINAL_COLUMNS, EMPTY_CELL, SlrOp(ShiftOp, 0)),
           Table(NUM_TERMINAL_COLUMNS, EMPTY_CELL, SlrOp(ShiftOp, 0)))
  }

  /** The placeholder tables the initialiser is meant to give: every cell Empty. */
  function AllEmpty(): (tb: Tables)
    ensures WellFormed(tb) && EofNeverShifts(tb)
  {
    Tables(Table(NUM_NONTERMINAL_COLUMNS, EMPTY_CELL, EMPTY_CELL),
           Table(NUM_TERMINAL_COLUMNS, EMPTY_CELL, EMPTY_CELL))
  }

  /** With the shipped tables, each end-of-file token is shifted onto state 0 and the loop goes on. */
  lemma {:induction false} ShippedShiftsEof(toks: seq<Token>, c: Config)
    requires Inv(AsShipped(), c) && Top(c.stack).state == 0
    requires forall i :: 0 <= i < |toks| ==> toks[i].kind == Eof
    ensures Drive(AsShipped(), toks, c).None?
    decreases |toks|
  {
    if toks != [] {
      var tb := AsShipped();
      var tok := toks[0];
      assert ShiftReduceGet(tb, 0, tok.kind) == SlrOp(ShiftOp, 0);
      var r := StepSpec(tb, c, tok);
      StepOutcome(tb, c, tok);
      assert r.0 == Idle && Top(r.1.stack).state == 0;
      ShippedShiftsEof(toks[1..], r.1);
    }
  }

  /** Past the end of the source, every call yields end of file. */
  lemma {:induction false} CallsPastEnd(src: seq<Byte>, len: nat, s: LexState, k: nat)
    requires SrcOk(src, len) && Sane(s) && s.start > len
    ensures forall i :: 0 <= i < k ==> Calls(src, len, s, k)[i].kind == Eof
    decreases k
  {
    if k > 0 {
      EofForever(src, len, s);
      CallsPastEnd(src, len, s, k - 1);
    }
  }

  /** With the shipped tables, the loop of `check_src` never ends on the empty source, whatever the budget. */
  lemma ShippedLoopsOnEmptySource(fuel: nat)
    ensures var src: seq<Byte> := ['\0'];
      && SrcOk(src, 0)
      && Drive(AsShipped(), Calls(src, 0, InitState(), fuel), InitConfig()).None?
  {
    var src: seq<Byte> := ['\0'];
    InitOk(AsShipped());
    if fuel > 0 {
      WhitespaceOnlyIsEof(src, 0, InitState());
      var next := NextSpec(src, 0, InitState());
      CallsPastEnd(src, 0, next.1, fuel - 1);
      assert Calls(src, 0, InitState(), fuel) == [next.0] + Calls(src, 0, next.1, fuel - 1);
    }
    ShippedShiftsEof(Calls(src, 0, InitState(), fuel), InitConfig());
  }

  /** With all-Empty tables, the first token that reaches the parser is rejected as a syntax error. */
  lemma AllEmptyRejects(tok: Token, c: Config)
    requires Inv(AllEmpty(), c) && HasColumn(tok.kind)
    ensures StepSpec(AllEmpty(), c, tok) == (Reject, PushToken(c, tok, 0, SyntaxError))
  {
    assert ShiftReduceGet(AllEmpty(), Top(c.stack).state, tok.kind) == EMPTY_CELL;
  }

  /** With all-Empty tables, the loop of `check_src` never accepts. */
  lemma {:induction false} AllEmptyNeverAccepts(toks: seq<Token>, c: Config)
    requires Inv(AllEmpty(), c)
    ensures var r := Drive(AllEmpty(), toks, c); r.Some? ==> r.value.0 == Reject
    decreases |toks|
  {
    if toks != [] {
      var tok := toks[0];
      if tok.kind == Comment {
        AllEmptyNeverAccepts(toks[1..], c);
      } else if tok.kind != Invalid {
        AllEmptyRejects(tok, c);
      }
    }
  }
}
