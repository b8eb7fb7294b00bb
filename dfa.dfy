/**
 * The table-driven deterministic automaton of lexer.c: a state is stepped through
 * `table[byte][state]`, and a state is accepting when it is listed in `accepts`.
 */
module Automaton {
  import opened Bytes

  /** A transition table of 256 rows (one per byte) of `n` target states, each below `n`. */
  ghost predicate WellFormed(table: seq<seq<nat>>, n: nat) {
    |table| == 256 &&
    forall b :: 0 <= b < 256 ==> |table[b]| == n && forall q :: 0 <= q < n ==> table[b][q] < n
  }

  /** The state reached from `q` after feeding the bytes of `w` from left to right. */
  function Run(table: seq<seq<nat>>, n: nat, q: nat, w: seq<Byte>): (r: nat)
    requires WellFormed(table, n) && q < n
    ensures r < n
    decreases |w|
  {
    if w == [] then q else Run(table, n, table[w[0] as int][q], w[1..])
  }

  /** Feeding one more byte steps the state reached so far. */
  lemma {:induction false} RunSnoc(table: seq<seq<nat>>, n: nat, q: nat, w: seq<Byte>, c: Byte)
    requires WellFormed(table, n) && q < n
    ensures Run(table, n, q, w + [c]) == table[c as int][Run(table, n, q, w)]
    decreases |w|
  {
    if w == [] {
      assert w + [c] == [c];
    } else {
      assert (w + [c])[1..] == w[1..] + [c];
      RunSnoc(table, n, table[w[0] as int][q], w[1..], c);
    }
  }

  /** Runs compose over concatenation. */
  lemma {:induction false} RunAppend(table: seq<seq<nat>>, n: nat, q: nat, u: seq<Byte>, v: seq<Byte>)
    requires WellFormed(table, n) && q < n
    ensures Run(table, n, q, u + v) == Run(table, n, Run(table, n, q, u), v)
    decreases |u|
  {
    if u == [] {
      assert u + v == v;
    } else {
      assert (u + v)[1..] == u[1..] + v;
      RunAppend(table, n, table[u[0] as int][q], u[1..], v);
    }
  }

  /** The C `struct DFA`: a constant table, start state and accepting list, and a mutable current state. */
  class Dfa {
    const table: seq<seq<nat>>
    const numStates: nat
    const start: nat
    const accepts: seq<nat>
    var state: nat

    ghost predicate Valid()
      reads this
    {
      WellFormed(table, numStates) && start < numStates && state < numStates
    }

    /** A static initialiser such as `LEXER_DFA`: the current state begins at the start state. */
    constructor (table: seq<seq<nat>>, numStates: nat, start: nat, accepts: seq<nat>)
      requires WellFormed(table, numStates) && start < numStates
      ensures Valid()
      ensures this.table == table && this.numStates == numStates && this.start == start && this.accepts == accepts
      ensures state == start
    {
      this.table := table;
      this.numStates := numStates;
      this.start := start;
      this.accepts := accepts;
      this.state := start;
    }

    /** `dfa_reset`. */
    method Reset()
      requires Valid()
      modifies this
      ensures Valid() && state == start
    {
      state := start;
    }

    /** `dfa_next`: one transition on byte `c`. */
    method Next(c: Byte)
      requires Valid()
      modifies this
      ensures Valid() && state == table[c as int][old(state)]
    {
      state := table[c as int][state];
    }

    /** `dfa_is_accept`: OR-accumulates a comparison against every listed accepting state. */
    method IsAccept() returns (accept: bool)
      ensures accept <==> state in accepts
    {
      accept := false;
      for i := 0 to |accepts|
        invariant accept <==> state in accepts[..i]
      {
        assert accepts[..i + 1] == accepts[..i] + [accepts[i]];
        accept := accept || state == accepts[i];
      }
      assert accepts[..|accepts|] == accepts;
    }

    /**
     * `dfa_matches`: feeds every character of the C string `s` from the CURRENT state (it does
     * not reset first), reports whether the state reached is accepting, then resets.
     */
    method Matches(s: seq<Byte>) returns (accept: bool)
      requires Valid()
      modifies this
      ensures Valid() && state == start
      ensures accept <==> Run(table, numStates, old(state), CString(s)) in accepts
    {
      ghost var w := CString(s);
      var cursor := 0;
      while cursor < |s| && s[cursor] != '\0'
        invariant cursor <= |w| && w[..cursor] == s[..cursor]
        invariant Valid()
        invariant state == Run(table, numStates, old(state), w[..cursor])
        decreases |s| - cursor
      {
        assert w[..cursor + 1] == w[..cursor] + [s[cursor]];
        RunSnoc(table, numStates, old(state), w[..cursor], s[cursor]);
        Next(s[cursor]);
        cursor := cursor + 1;
      }
      assert w[..cursor] == w;
      accept := IsAccept();
      Reset();
    }
  }
}
