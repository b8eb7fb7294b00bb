/**
 * The lexer's automaton data from lexer.h: a 9-state transition table indexed by byte,
 * start state 1 and accepting states {2, 4, 5, 7, 8}.
 *
 * States: 0 dead, 1 start, 2 inside a non-zero numeral, 3 after `-`, 4 after `->`,
 * 5 inside a word, 6 inside a `[` comment, 7 after the closing `]`,
 * 8 after a one-byte punctuation token or the numeral `0`.
 */
module LexerTable {
  import opened Bytes
  import opened Automaton

  const NUM_STATES: nat := 9
  const START: nat := 1
  const DEAD: nat := 0
  const ACCEPTS: seq<nat> := [2, 4, 5, 7, 8]

  /** The one-byte tokens: each moves the start state to the accepting state 8. */
  predicate IsPunct(b: Byte) { b in "&()+:;<=?" }

  /**
   * Row `b` of `TABLE`, transcribed row class by row class. Every byte not named here has
   * the row `{0, 1, 0, 0, 0, 0, 6, 0, 0}`.
   */
  function Row(b: Byte): (r: seq<nat>)
    ensures |r| == 9
    ensures forall q :: 0 <= q < 9 ==> r[q] < 9
  {
    if IsPunct(b) then [0, 8, 0, 0, 0, 0, 6, 0, 0]
    else if b == '-' then [0, 3, 0, 0, 0, 0, 6, 0, 0]
    else if b == '0' then [0, 8, 2, 0, 0, 5, 6, 0, 0]
    else if '1' <= b <= '9' then [0, 2, 2, 0, 0, 5, 6, 0, 0]
    else if b == '>' then [0, 1, 0, 4, 0, 0, 6, 0, 0]
    else if IsAlpha(b) then [0, 5, 0, 0, 0, 5, 6, 0, 0]
    else if b == '[' then [0, 6, 0, 0, 0, 0, 6, 0, 0]
    else if b == ']' then [0, 1, 0, 0, 0, 0, 7, 0, 0]
    else if b == '_' then [0, 1, 0, 0, 0, 5, 6, 0, 0]
    else [0, 1, 0, 0, 0, 0, 6, 0, 0]
  }

  /** `TABLE[256][9]`: row `b` is `Row(b)`. */
  function Table(): seq<seq<nat>> {
    seq(256, i requires 0 <= i < 256 => Row(i as char))
  }

  lemma TableWellFormed()
    ensures WellFormed(Table(), NUM_STATES)
    ensures forall b: Byte :: Table()[b as int] == Row(b)
  {
  }

  /**
   * The transition `TABLE[b][q]`, read column by column: what each state does with byte `b`.
   * `StepIsTable` shows that it agrees with the transcribed rows.
   */
  function Step(q: nat, b: Byte): (r: nat)
    requires q < NUM_STATES
    ensures r < NUM_STATES
  {
    if q == 1 then
      if IsPunct(b) || b == '0' then 8
      else if b == '-' then 3
      else if '1' <= b <= '9' then 2
      else if IsAlpha(b) then 5
      else if b == '[' then 6
      else 1
    else if q == 2 then (if IsDigit(b) then 2 else 0)
    else if q == 3 then (if b == '>' then 4 else 0)
    else if q == 5 then (if IsAlnum(b) || b == '_' then 5 else 0)
    else if q == 6 then (if b == ']' then 7 else 6)
    else 0
  }

  lemma StepIsRow(q: nat, b: Byte)
    requires q < NUM_STATES
    ensures Step(q, b) == Row(b)[q]
  {
  }

  lemma StepIsTable(q: nat, b: Byte)
    requires q < NUM_STATES
    ensures Step(q, b) == Table()[b as int][q]
  {
    TableWellFormed();
    StepIsRow(q, b);
  }

  function Accepting(q: nat): bool { q in ACCEPTS }

  /** The state the lexer automaton reaches from `q` on `w`, one `Step` per byte. */
  function RunFrom(q: nat, w: seq<Byte>): (r: nat)
    requires q < NUM_STATES
    ensures r < NUM_STATES
    decreases |w|
  {
    if w == [] then q else RunFrom(Step(q, w[0]), w[1..])
  }

  /** `RunFrom` is the generic automaton run over `TABLE`. */
  lemma {:induction false} RunFromIsRun(q: nat, w: seq<Byte>)
    requires q < NUM_STATES
    ensures WellFormed(Table(), NUM_STATES) && RunFrom(q, w) == Run(Table(), NUM_STATES, q, w)
    decreases |w|
  {
    TableWellFormed();
    if w != [] {
      StepIsTable(q, w[0]);
      RunFromIsRun(Step(q, w[0]), w[1..]);
    }
  }

  lemma {:induction false} RunFromCons(q: nat, w: seq<Byte>)
    requires q < NUM_STATES && w != []
    ensures RunFrom(q, w) == RunFrom(Step(q, w[0]), w[1..])
  {
  }

  lemma {:induction false} RunFromSnoc(q: nat, w: seq<Byte>, c: Byte)
    requires q < NUM_STATES
    ensures RunFrom(q, w + [c]) == Step(RunFrom(q, w), c)
    decreases |w|
  {
    if w == [] {
      assert w + [c] == [c];
    } else {
      assert (w + [c])[1..] == w[1..] + [c];
      RunFromSnoc(Step(q, w[0]), w[1..], c);
    }
  }

  /** State 0 is dead: no byte leaves it, and it is not accepting. */
  lemma {:induction false} DeadState(w: seq<Byte>)
    ensures RunFrom(DEAD, w) == DEAD && !Accepting(DEAD)
    decreases |w|
  {
    if w != [] {
      RunFromCons(DEAD, w);
      DeadState(w[1..]);
    }
  }

  /** The states 4, 7 and 8 are final: they accept only the empty continuation. */
  lemma {:induction false} FinalStates(q: nat, w: seq<Byte>)
    requires q == 4 || q == 7 || q == 8
    ensures RunFrom(q, w) == if w == [] then q else DEAD
  {
    if w != [] {
      RunFromCons(q, w);
      DeadState(w[1..]);
    }
  }

  /** State 2 keeps reading digits; any other byte kills it. */
  lemma {:induction false} NumeralState(w: seq<Byte>)
    ensures RunFrom(2, w) == if forall i :: 0 <= i < |w| ==> IsDigit(w[i]) then 2 else DEAD
    decreases |w|
  {
    if w != [] {
      RunFromCons(2, w);
      if IsDigit(w[0]) {
        NumeralState(w[1..]);
        assert (forall i :: 0 <= i < |w| ==> IsDigit(w[i])) <==> (forall i :: 0 <= i < |w[1..]| ==> IsDigit(w[1..][i]));
      } else {
        DeadState(w[1..]);
      }
    }
  }

  predicate IsWordByte(b: Byte) { IsAlnum(b) || b == '_' }

  /** State 5 keeps reading letters, digits and `_`; any other byte kills it. */
  lemma {:induction false} WordState(w: seq<Byte>)
    ensures RunFrom(5, w) == if forall i :: 0 <= i < |w| ==> IsWordByte(w[i]) then 5 else DEAD
    decreases |w|
  {
    if w != [] {
      RunFromCons(5, w);
      if IsWordByte(w[0]) {
        WordState(w[1..]);
        assert (forall i :: 0 <= i < |w| ==> IsWordByte(w[i])) <==> (forall i :: 0 <= i < |w[1..]| ==> IsWordByte(w[1..][i]));
      } else {
        DeadState(w[1..]);
      }
    }
  }

  /** State 6 stays in the comment until the first `]`, which moves it to the final state 7. */
  lemma {:induction false} CommentState(w: seq<Byte>)
    ensures RunFrom(6, w) ==
      if ']' !in w then 6
      else if w[|w| - 1] == ']' && ']' !in w[..|w| - 1] then 7
      else DEAD
    decreases |w|
  {
    if w != [] {
      RunFromCons(6, w);
      if w[0] == ']' {
        FinalStates(7, w[1..]);
        if |w| > 1 {
          assert w[..|w| - 1][0] == ']';
        }
      } else {
        CommentState(w[1..]);
        assert w == [w[0]] + w[1..];
        assert ']' in w <==> ']' in w[1..];
        if |w| > 1 {
          assert w[..|w| - 1] == [w[0]] + w[1..][..|w[1..]| - 1];
        }
      }
    }
  }

  /** `-` moves the start state to 3, and only `>` continues from 3, to the accepting state 4. */
  lemma {:induction false} ArrowState(w: seq<Byte>)
    ensures RunFrom(3, w) == if w == [] then 3 else if w[0] == '>' then RunFrom(4, w[1..]) else DEAD
  {
    if w != [] {
      RunFromCons(3, w);
      if w[0] != '>' {
        DeadState(w[1..]);
      }
    }
  }

  /** The bytes that leave the start state where it is (whitespace, `>`, `]`, `_` and every unlisted byte). */
  predicate StaysAtStart(b: Byte) { Step(START, b) == START }

  predicate NumeralShape(w: seq<Byte>) {
    |w| >= 1 && '1' <= w[0] <= '9' && forall i :: 1 <= i < |w| ==> IsDigit(w[i])
  }

  predicate WordShape(w: seq<Byte>) {
    |w| >= 1 && IsAlpha(w[0]) && forall i :: 1 <= i < |w| ==> IsWordByte(w[i])
  }

  predicate CommentShape(w: seq<Byte>) {
    |w| >= 2 && w[0] == '[' && w[|w| - 1] == ']' && forall i :: 1 <= i < |w| - 1 ==> w[i] != ']'
  }

  /** The lexemes the automaton accepts when started on a byte that moves it away from the start state. */
  predicate TokenShape(w: seq<Byte>) {
    NumeralShape(w) || w == "0" || WordShape(w) || w == "->" || (|w| == 1 && IsPunct(w[0])) || CommentShape(w)
  }

  /** Accepted words: a run of bytes that stay at the start state, then one of the token shapes. */
  predicate Acceptable(w: seq<Byte>)
    decreases |w|
  {
    |w| > 0 && if StaysAtStart(w[0]) then Acceptable(w[1..]) else TokenShape(w)
  }

  lemma {:induction false} AcceptsExactly(w: seq<Byte>)
    ensures Accepting(RunFrom(START, w)) <==> Acceptable(w)
    decreases |w|
  {
    if w == [] {
      return;
    }
    RunFromCons(START, w);
    var b, rest := w[0], w[1..];
    if StaysAtStart(b) {
      AcceptsExactly(rest);
    } else if IsPunct(b) {
      FinalStates(8, rest);
    } else if b == '-' {
      ArrowState(rest);
      if rest != [] && rest[0] == '>' {
        FinalStates(4, rest[1..]);
        assert w == "->" <==> rest[1..] == [] by {
          if rest[1..] == [] { assert w == [w[0], w[1]]; }
        }
      }
    } else if b == '0' {
      FinalStates(8, rest);
      assert w == "0" <==> rest == [] by {
        if rest == [] { assert w == [w[0]]; }
      }
    } else if '1' <= b <= '9' {
      NumeralState(rest);
      assert NumeralShape(w) <==> forall i :: 0 <= i < |rest| ==> IsDigit(rest[i]) by {
        assert forall i :: 1 <= i < |w| ==> w[i] == rest[i - 1];
      }
    } else if IsAlpha(b) {
      WordState(rest);
      assert WordShape(w) <==> forall i :: 0 <= i < |rest| ==> IsWordByte(rest[i]) by {
        assert forall i :: 1 <= i < |w| ==> w[i] == rest[i - 1];
      }
    } else {
      assert b == '[';
      CommentState(rest);
      if ']' in rest && rest[|rest| - 1] == ']' && ']' !in rest[..|rest| - 1] {
        assert CommentShape(w) by {
          forall i | 1 <= i < |w| - 1 ensures w[i] != ']' {
            assert w[i] == rest[..|rest| - 1][i - 1];
          }
        }
      }
      if CommentShape(w) {
        assert rest[|rest| - 1] == ']';
        assert ']' !in rest[..|rest| - 1] by {
          forall j | 0 <= j < |rest| - 1 ensures rest[j] != ']' {
            assert rest[j] == w[j + 1];
          }
        }
      }
    }
  }
}
