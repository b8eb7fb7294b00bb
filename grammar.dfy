/**
 * The grammar of parser.h: the productions P0-P18 of the mini language, with the augmented rule
 * P0 (S' -> S, whose left-hand side is stored as `S`). The grammar's `NatLit` terminal is the
 * lexer's `Literal` kind, which is the only literal kind the lexer emits.
 */
module Grammar {
  import opened Lexer

  /** `struct Term`: a non-terminal named by a letter, or a terminal token kind. */
  datatype Term = NonTerminal(nt: char) | Terminal(t: TokenKind)

  /** `struct Production`: `nRhs` is the stored count `n_rhs`, `rhs` the listed terms. */
  datatype Production = Production(nRhs: nat, lhs: Term, rhs: seq<Term>)

  /** The nine non-terminals, in the order of the goto table's columns. */
  const NON_TERMINALS: seq<char> := "SFATCEIBR"

  const NUM_PRODUCTIONS: nat := 19

  function N(c: char): Term { NonTerminal(c) }
  function T(k: TokenKind): Term { Terminal(k) }

  /** `P0`-`P18`, at their indices: what both `grammar_init` and `grammar_new` store. */
  function Productions(): seq<Production> {
    [ Production(1, N('S'), [N('S')]),                                            // S' -> S
      Production(3, N('S'), [N('F'), T(Semicolon), N('S')]),                      // S -> F ; S
      Production(1, N('S'), [N('C')]),                                            // S -> C
      Production(5, N('F'), [T(FuncDecl), T(Identifier), N('A'), T(Arrow), N('C')]), // F -> fun id A -> C
      Production(3, N('A'), [N('T'), T(Identifier), N('A')]),                     // A -> T id A
      Production(2, N('A'), [N('T'), T(Identifier)]),                             // A -> T id
      Production(1, N('T'), [T(NatDecl)]),                                        // T -> nat
      Production(1, N('T'), [T(BoolDecl)]),                                       // T -> bool
      Production(5, N('C'), [N('B'), T(QuestionMark), N('E'), T(Colon), N('C')]), // C -> B ? E : C
      Production(1, N('C'), [N('E')]),                                            // C -> E
      Production(4, N('E'), [T(LeftParen), T(Identifier), N('I'), T(RightParen)]), // E -> ( id I )
      Production(2, N('I'), [N('E'), N('I')]),                                    // I -> E I
      Production(1, N('I'), [N('E')]),                                            // I -> E
      Production(3, N('E'), [T(Literal), T(Plus), N('E')]),                       // E -> lit + E
      Production(1, N('E'), [T(Literal)]),                                        // E -> lit
      Production(5, N('B'), [N('E'), N('R'), N('E'), T(Ampersand), N('B')]),      // B -> E R E & B
      Production(3, N('B'), [N('E'), N('R'), N('E')]),                            // B -> E R E
      Production(1, N('R'), [T(Less)]),                                           // R -> <
      Production(1, N('R'), [T(Equal)])                                           // R -> =
    ]
  }

  /** The token kinds a shift-reduce table has a column for: all but Comment and Invalid. */
  predicate HasColumn(k: TokenKind) {
    k != Comment && k != Invalid
  }

  /** A term the tables can index: a listed non-terminal, or a terminal with a column. */
  predicate Indexable(t: Term) {
    if t.NonTerminal? then t.nt in NON_TERMINALS else HasColumn(t.t) && t.t != Eof
  }

  /** The grammar's table of productions, one per index. */
  lemma ProductionsAtIndices()
    ensures |Productions()| == NUM_PRODUCTIONS
    ensures Productions()[0] == Production(1, NonTerminal('S'), [NonTerminal('S')])
  {
  }

  /** Every production's stored `n_rhs` is the number of terms it lists, at most five. */
  lemma CountsMatch(p: nat)
    requires p < NUM_PRODUCTIONS
    ensures Productions()[p].nRhs == |Productions()[p].rhs|
    ensures 1 <= Productions()[p].nRhs <= 5
    ensures Productions()[p].nRhs == 5 <==> p in {3, 8, 15}
  {
  }

  /**
   * Every left-hand side is a listed non-terminal, every right-hand term can index the tables,
   * and the end-of-file kind appears in no right-hand side.
   */
  lemma TermsIndexable(p: nat, i: nat)
    requires p < NUM_PRODUCTIONS && i < |Productions()[p].rhs|
    ensures Productions()[p].lhs.NonTerminal? && Indexable(Productions()[p].lhs)
    ensures Indexable(Productions()[p].rhs[i])
  {
  }

  /** Each of the nine non-terminals is the left-hand side of some production. */
  lemma EveryNonTerminalDefined(c: char)
    requires c in NON_TERMINALS
    ensures exists p :: 0 <= p < NUM_PRODUCTIONS && Productions()[p].lhs == NonTerminal(c)
  {
    var lhs := map['S' := 1, 'F' := 3, 'A' := 4, 'T' := 6, 'C' := 8, 'E' := 10, 'I' := 11, 'B' := 15, 'R' := 17];
    assert Productions()[lhs[c]].lhs == NonTerminal(c);
  }

  /**
   * What `prods[i] = Pi` in `grammar_init` and `grammar_new`, and the copy `prod = prods[p]` in
   * `slr_parser_step`, hold as written: `rhs[]` is a flexible array member, so a struct assignment
   * copies `n_rhs` and `lhs` and none of the right-hand terms (section 6.7.2.1 of C11: a flexible
   * array member is ignored by assignment, and `prods[]` holds each production at its base size).
   */
  function StoredAsWritten(p: Production): (r: Production)
    ensures r.nRhs == p.nRhs && r.lhs == p.lhs
  {
    Production(p.nRhs, p.lhs, [])
  }

  /**
   * As written, every index `0 <= i < n_rhs` the reduce loop reads in `prod.rhs[i]` lies outside the
   * terms stored. The substance is `StoredAsWritten`: the struct copy keeps the count and drops the
   * flexible array member's terms, so each such read is past the end of the object.
   */
  lemma StoredRhsOutOfBounds(p: nat, i: nat)
    requires p < NUM_PRODUCTIONS && i < Productions()[p].nRhs
    ensures var q := StoredAsWritten(Productions()[p]); i < q.nRhs && i >= |q.rhs|
  {
  }
}
