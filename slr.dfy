/**
 * The SLR(1) machine of parser.c: table cells and their lookups, the parser stack of items, the
 * forest of finished subtrees, and one `slr_parser_step` as a specification (`StepSpec`) and as a
 * method on an `SlrParser` object. The tables are parameters; the grammar is the one of parser.h.
 */
module Slr {
  import opened Wrappers
  import opened Lexer
  import opened Grammar
  import opened ParseTrees

  /** `SLRopTy`. */
  datatype OpKind = ShiftOp | ReduceOp | GotoOp | EmptyOp

  /** `SLRop`: a cell of either table. */
  datatype SlrOp = SlrOp(ty: OpKind, value: nat)

  /** `SLRTable`: one row per state, 9 goto columns and 16 shift-reduce columns. */
  datatype Tables = Tables(gotoTable: seq<seq<SlrOp>>, shiftReduce: seq<seq<SlrOp>>)

  const NUM_TERMINAL_COLUMNS: nat := 16
  const NUM_NONTERMINAL_COLUMNS: nat := 9

  /** The token kind of each shift-reduce column. */
  const TERMINAL_COLUMNS: seq<TokenKind> :=
    [Semicolon, FuncDecl, Identifier, Arrow, NatDecl, BoolDecl, QuestionMark, Colon,
     LeftParen, RightParen, Literal, Plus, Ampersand, Less, Equal, Eof]

  /** The column `shift_reduce_table_get` reads for a token kind; Comment and Invalid have none. */
  function TerminalColumn(k: TokenKind): (c: nat)
    requires HasColumn(k)
    ensures c < NUM_TERMINAL_COLUMNS && TERMINAL_COLUMNS[c] == k
  {
    match k
    case Semicolon => 0
    case FuncDecl => 1
    case Identifier => 2
    case Arrow => 3
    case NatDecl => 4
    case BoolDecl => 5
    case QuestionMark => 6
    case Colon => 7
    case LeftParen => 8
    case RightParen => 9
    case Literal => 10
    case Plus => 11
    case Ampersand => 12
    case Less => 13
    case Equal => 14
    case Eof => 15
  }

  /** The column `goto_table_get` reads for a non-terminal: its place in `S F A T C E I B R`. */
  function NonTerminalColumn(nt: char): (c: nat)
    requires nt in NON_TERMINALS
    ensures c < NUM_NONTERMINAL_COLUMNS && NON_TERMINALS[c] == nt
  {
    if nt == 'S' then 0 else if nt == 'F' then 1 else if nt == 'A' then 2
    else if nt == 'T' then 3 else if nt == 'C' then 4 else if nt == 'E' then 5
    else if nt == 'I' then 6 else if nt == 'B' then 7 else 8
  }

  /** Both column maps are one-to-one and onto their columns. */
  lemma ColumnsBijective()
    ensures forall a, b :: HasColumn(a) && HasColumn(b) && TerminalColumn(a) == TerminalColumn(b) ==> a == b
    ensures forall c :: 0 <= c < NUM_TERMINAL_COLUMNS ==> HasColumn(TERMINAL_COLUMNS[c]) && TerminalColumn(TERMINAL_COLUMNS[c]) == c
    ensures forall a, b :: a in NON_TERMINALS && b in NON_TERMINALS && NonTerminalColumn(a) == NonTerminalColumn(b) ==> a == b
    ensures forall c :: 0 <= c < NUM_NONTERMINAL_COLUMNS ==> NonTerminalColumn(NON_TERMINALS[c]) == c
  {
  }

  /** A shift-reduce cell whose target can be followed: a shift to a state, a reduce by a production. */
  predicate CellOk(op: SlrOp, numStates: nat) {
    && (op.ty == ShiftOp ==> op.value < numStates)
    && (op.ty == ReduceOp ==> op.value < NUM_PRODUCTIONS)
  }

  /** Tables that the lookups can index from every state they lead to. */
  ghost predicate WellFormed(tb: Tables) {
    var n := |tb.shiftReduce|;
    && n > 0 && |tb.gotoTable| == n
    && (forall s :: 0 <= s < n ==> |tb.shiftReduce[s]| == NUM_TERMINAL_COLUMNS && |tb.gotoTable[s]| == NUM_NONTERMINAL_COLUMNS)
    && (forall s, c :: 0 <= s < n && 0 <= c < NUM_TERMINAL_COLUMNS ==> CellOk(tb.shiftReduce[s][c], n))
    && (forall s, c :: 0 <= s < n && 0 <= c < NUM_NONTERMINAL_COLUMNS ==> tb.gotoTable[s][c].value < n)
  }

  /** `shift_reduce_table_get`. */
  function ShiftReduceGet(tb: Tables, state: nat, k: TokenKind): (op: SlrOp)
    requires WellFormed(tb) && state < |tb.shiftReduce| && HasColumn(k)
    ensures CellOk(op, |tb.shiftReduce|)
  {
    tb.shiftReduce[state][TerminalColumn(k)]
  }

  /** `goto_table_get`. */
  function GotoGet(tb: Tables, state: nat, nt: char): (op: SlrOp)
    requires WellFormed(tb) && state < |tb.gotoTable| && nt in NON_TERMINALS
    ensures op.value < |tb.gotoTable|
  {
    tb.gotoTable[state][NonTerminalColumn(nt)]
  }

  /** `SLRSymbolTy` with its symbol: the bottom marker, a token, or a non-terminal. */
  datatype StackSymbol = Bottom | TokenItem(token: Token) | NtItem(nt: char)

  /** `SLRItem`: a symbol and the state it leads to. */
  datatype Item = Item(symbol: StackSymbol, state: nat)

  /** `ParserState`. */
  datatype ParserState = Idle | Accept | Reject

  /** The operation trace: what each recorded step did (the source keeps it as text). */
  datatype TraceOp = Started | Shifted(target: nat) | Reduced(prod: nat) | Accepted | SyntaxError

  /** The parser's state as a value: the stack, the forest root's children, and both traces. */
  datatype Config = Config(stack: seq<Item>, forest: seq<Tree>, stackTrace: seq<seq<Item>>, opTrace: seq<TraceOp>)

  function Top(stack: seq<Item>): Item
    requires stack != []
  {
    stack[|stack| - 1]
  }

  function Leaf(t: Token): Tree {
    Tree(Some(TokenSymbol(t)), TerminalNode, [])
  }

  /** The non-terminals on the stack, bottom to top. */
  function NtItems(stack: seq<Item>): seq<char> {
    if stack == [] then []
    else NtItems(stack[..|stack| - 1]) + (if Top(stack).symbol.NtItem? then [Top(stack).symbol.nt] else [])
  }

  /** A subtree for each non-terminal on the stack, in the same order and rooted at it. */
  ghost predicate Mirrors(stack: seq<Item>, forest: seq<Tree>) {
    var nts := NtItems(stack);
    && |nts| == |forest|
    && forall j :: 0 <= j < |forest| ==> forest[j].symbol == Some(NtSymbol(nts[j])) && forest[j].ty == NonTerminalNode
  }

  /** The bottom marker with state 0 under items of states the tables have rows for. */
  ghost predicate StackOk(stack: seq<Item>, numStates: nat) {
    && |stack| >= 1 && stack[0] == Item(Bottom, 0)
    && (forall i :: 1 <= i < |stack| ==> !stack[i].symbol.Bottom?)
    && (forall i :: 0 <= i < |stack| ==> stack[i].state < numStates)
  }

  /** What the parser keeps between steps. */
  ghost predicate Inv(tb: Tables, c: Config) {
    && WellFormed(tb)
    && StackOk(c.stack, |tb.shiftReduce|)
    && Mirrors(c.stack, c.forest)
    && |c.stackTrace| == |c.opTrace|
  }

  /** The state after `slr_parser_init`. */
  function InitConfig(): Config {
    Config([Item(Bottom, 0)], [], [[Item(Bottom, 0)]], [Started])
  }

  lemma InitOk(tb: Tables)
    requires WellFormed(tb)
    ensures Inv(tb, InitConfig())
  {
  }

  /** Pushing the token in state `q`, recording the stack and `op`. */
  function PushToken(c: Config, tok: Token, q: nat, op: TraceOp): (r: Config)
    ensures r.stack == c.stack + [Item(TokenItem(tok), q)]
    ensures r.forest == c.forest
    ensures r.stackTrace == c.stackTrace + [r.stack] && r.opTrace == c.opTrace + [op]
  {
    var stack := c.stack + [Item(TokenItem(tok), q)];
    Config(stack, c.forest, c.stackTrace + [stack], c.opTrace + [op])
  }

  lemma PushTokenOk(tb: Tables, c: Config, tok: Token, q: nat, op: TraceOp)
    requires Inv(tb, c) && q < |tb.shiftReduce|
    ensures Inv(tb, PushToken(c, tok, q, op))
  {
    NtItemsPush(c.stack, Item(TokenItem(tok), q));
    assert c.stack[..|c.stack|] == c.stack;
    StackOkPrefixPush(c.stack, |c.stack|, Item(TokenItem(tok), q), |tb.shiftReduce|);
  }

  /** The weight that every successful reduce lowers: 4 per token, and E > C, I > the other non-terminals. */
  function TermWeight(t: Term): nat {
    if t.Terminal? then 4 else if t.nt == 'E' then 3 else if t.nt == 'C' || t.nt == 'I' then 2 else 1
  }

  function ItemWeight(x: Item): nat {
    match x.symbol
    case Bottom => 0
    case TokenItem(_) => 4
    case NtItem(nt) => TermWeight(NonTerminal(nt))
  }

  function Weight(stack: seq<Item>): nat {
    if stack == [] then 0 else Weight(stack[..|stack| - 1]) + ItemWeight(Top(stack))
  }

  function RhsWeight(rhs: seq<Term>): nat {
    if rhs == [] then 0 else RhsWeight(rhs[..|rhs| - 1]) + TermWeight(rhs[|rhs| - 1])
  }

  /** For every production but the accepting one, its right-hand side weighs more than its left-hand side. */
  lemma ReduceShrinks(p: nat)
    requires 1 <= p < NUM_PRODUCTIONS
    ensures RhsWeight(Productions()[p].rhs) > TermWeight(Productions()[p].lhs)
  {
    var rhs := Productions()[p].rhs;
    if |rhs| >= 2 {
      assert RhsWeight(rhs) >= RhsWeight(rhs[..|rhs| - 1]) + 1;
      assert RhsWeight(rhs[..|rhs| - 1]) >= RhsWeight(rhs[..|rhs| - 2]) + 1 by {
        assert rhs[..|rhs| - 1][..|rhs| - 2] == rhs[..|rhs| - 2];
      }
      if Productions()[p].lhs.nt == 'E' {
        assert |rhs| >= 3;
        assert rhs[0].Terminal?;
        assert RhsWeight(rhs[..|rhs| - 2]) >= 2 by {
          var w := rhs[..|rhs| - 2];
          assert w[0] == rhs[0];
          RhsWeightAtLeast(w, 0);
        }
      }
    } else {
      assert rhs[..0] == [];
    }
  }

  lemma {:induction false} RhsWeightAtLeast(rhs: seq<Term>, i: nat)
    requires i < |rhs|
    ensures RhsWeight(rhs) >= TermWeight(rhs[i])
    decreases |rhs|
  {
    if i < |rhs| - 1 {
      assert rhs[..|rhs| - 1][i] == rhs[i];
      RhsWeightAtLeast(rhs[..|rhs| - 1], i);
    }
  }

  /** The pops of one reduce so far: whether every popped item matched, the stack and forest left, the children built. */
  datatype Pop = Pop(ok: bool, stack: seq<Item>, forest: seq<Tree>, kids: seq<Tree>)

  /**
   * One pass of the pop loop of a reduce, for the right-hand term `term`: the top item is popped;
   * a token must be a terminal of its kind and becomes a leaf, a non-terminal must be the same
   * non-terminal and brings the forest's last subtree; the bottom marker or an empty stack fails.
   */
  function PopOne(term: Term, p: Pop): (r: Pop)
    requires Mirrors(p.stack, p.forest)
    ensures |r.stack| <= |p.stack| <= |r.stack| + 1 && r.stack == p.stack[..|r.stack|]
    ensures r.ok ==> |r.stack| + 1 == |p.stack| && !Top(p.stack).symbol.Bottom?
    ensures r.ok ==> Mirrors(r.stack, r.forest) && r.forest == p.forest[..|r.forest|]
    ensures r.ok ==> Weight(p.stack) == Weight(r.stack) + TermWeight(term)
  {
    if p.stack == [] then p.(ok := false)
    else
      var last, rest := Top(p.stack), p.stack[..|p.stack| - 1];
      match last.symbol
      case Bottom => Pop(false, rest, p.forest, p.kids)
      case TokenItem(t) =>
        if term == Terminal(t.kind) then Pop(true, rest, p.forest, [Leaf(t)] + p.kids)
        else Pop(false, rest, p.forest, p.kids)
      case NtItem(nt) =>
        if term == NonTerminal(nt) then
          Pop(true, rest, p.forest[..|p.forest| - 1], [p.forest[|p.forest| - 1]] + p.kids)
        else Pop(false, rest, p.forest, p.kids)
  }

  /** The pop loop `for (i = n_rhs - 1; i >= 0; i--)`, with the terms `rhs[..i]` still to pop. */
  function PopRhs(rhs: seq<Term>, i: nat, p: Pop): (r: Pop)
    requires i <= |rhs| && Mirrors(p.stack, p.forest)
    ensures |r.stack| <= |p.stack| && r.stack == p.stack[..|r.stack|]
    ensures r.ok ==> |r.stack| + i == |p.stack| && Mirrors(r.stack, r.forest)
    ensures r.ok ==> forall j :: |r.stack| <= j < |p.stack| ==> !p.stack[j].symbol.Bottom?
    ensures r.ok ==> Weight(p.stack) == Weight(r.stack) + RhsWeight(rhs[..i])
    decreases i
  {
    if i == 0 then p
    else
      var q := PopOne(rhs[i - 1], p);
      if !q.ok then q
      else
        var r := PopRhs(rhs, i - 1, q);
        assert rhs[..i][..i - 1] == rhs[..i - 1];
        r
  }

  /** The root of `t` is the grammar term `term`: its non-terminal, or a leaf with a token of its kind. */
  predicate RootIs(t: Tree, term: Term) {
    match term
    case NonTerminal(nt) => t.symbol == Some(NtSymbol(nt)) && t.ty == NonTerminalNode
    case Terminal(k) => t.symbol.Some? && t.symbol.value.TokenSymbol? && t.symbol.value.token.kind == k && t.ty == TerminalNode
  }

  /** The inner-node trees of `ts`, in order. */
  function Subtrees(ts: seq<Tree>): seq<Tree> {
    if ts == [] then [] else Subtrees(ts[..|ts| - 1]) + (if ts[|ts| - 1].ty == NonTerminalNode then [ts[|ts| - 1]] else [])
  }

  /** The leaves of `ts`, in order. */
  function LeavesOf(ts: seq<Tree>): seq<Tree> {
    if ts == [] then [] else LeavesOf(ts[..|ts| - 1]) + (if ts[|ts| - 1].ty == TerminalNode then [ts[|ts| - 1]] else [])
  }

  /** A leaf for each token item of `items`, in order. */
  function TokenLeaves(items: seq<Item>): seq<Tree> {
    if items == [] then [] else TokenLeaves(items[..|items| - 1]) + (if Top(items).symbol.TokenItem? then [Leaf(Top(items).symbol.token)] else [])
  }

  lemma {:induction false} FiltersAppend(a: seq<Tree>, b: seq<Tree>)
    ensures Subtrees(a + b) == Subtrees(a) + Subtrees(b) && LeavesOf(a + b) == LeavesOf(a) + LeavesOf(b)
    decreases |b|
  {
    if b == [] {
      assert a + b == a;
    } else {
      var b' := b[..|b| - 1];
      assert (a + b)[..|a + b| - 1] == a + b';
      FiltersAppend(a, b');
    }
  }

  lemma {:induction false} TokenLeavesAppend(a: seq<Item>, b: seq<Item>)
    ensures TokenLeaves(a + b) == TokenLeaves(a) + TokenLeaves(b)
    decreases |b|
  {
    if b == [] {
      assert a + b == a;
    } else {
      var b' := b[..|b| - 1];
      assert (a + b)[..|a + b| - 1] == a + b';
      TokenLeavesAppend(a, b');
    }
  }

  /** One matching pop adds one child in front, rooted at the term, taken from the forest's end or made from the token. */
  lemma PopOneChild(term: Term, p: Pop)
    requires Mirrors(p.stack, p.forest) && PopOne(term, p).ok
    ensures var q := PopOne(term, p);
      && |q.kids| == |p.kids| + 1 && q.kids[1..] == p.kids && RootIs(q.kids[0], term)
      && p.forest == q.forest + Subtrees([q.kids[0]])
      && LeavesOf([q.kids[0]]) == TokenLeaves([Top(p.stack)])
  {
    var q := PopOne(term, p);
    var k := q.kids[0];
    assert Subtrees([k]) == Subtrees([]) + (if k.ty == NonTerminalNode then [k] else []);
    assert LeavesOf([k]) == LeavesOf([]) + (if k.ty == TerminalNode then [k] else []);
    assert TokenLeaves([Top(p.stack)]) == TokenLeaves([]) + (if Top(p.stack).symbol.TokenItem? then [Leaf(Top(p.stack).symbol.token)] else []);
  }

  /**
   * What pops from `p` to `r` built: the new children come first, one per term of `rhs[..i]` and
   * rooted at it; their inner nodes are the subtrees taken off the end of the forest and their
   * leaves are the popped tokens.
   */
  ghost predicate Built(rhs: seq<Term>, i: nat, p: Pop, r: Pop)
    requires i <= |rhs|
  {
    && |r.stack| <= |p.stack|
    && |r.kids| == i + |p.kids| && r.kids[i..] == p.kids
    && (forall j :: 0 <= j < i ==> RootIs(r.kids[j], rhs[j]))
    && p.forest == r.forest + Subtrees(r.kids[..i])
    && LeavesOf(r.kids[..i]) == TokenLeaves(p.stack[|r.stack|..])
  }

  /** The children a matching reduce builds. */
  lemma {:induction false} PopRhsChildren(rhs: seq<Term>, i: nat, p: Pop)
    requires i <= |rhs| && Mirrors(p.stack, p.forest)
    ensures PopRhs(rhs, i, p).ok ==> Built(rhs, i, p, PopRhs(rhs, i, p))
    decreases i
  {
    var r := PopRhs(rhs, i, p);
    if i == 0 {
      assert p.stack[|p.stack|..] == [];
      assert r.kids[..0] == [];
    } else if r.ok {
      var q := PopOne(rhs[i - 1], p);
      PopOneChild(rhs[i - 1], p);
      PopRhsChildren(rhs, i - 1, q);
      Stitch(rhs, i, p, q, r);
    }
  }

  lemma Stitch(rhs: seq<Term>, i: nat, p: Pop, q: Pop, r: Pop)
    requires 1 <= i <= |rhs|
    requires |q.kids| == |p.kids| + 1 && q.kids[1..] == p.kids && RootIs(q.kids[0], rhs[i - 1])
    requires p.forest == q.forest + Subtrees([q.kids[0]])
    requires |p.stack| == |q.stack| + 1 && q.stack == p.stack[..|q.stack|]
    requires LeavesOf([q.kids[0]]) == TokenLeaves([Top(p.stack)])
    requires Built(rhs, i - 1, q, r)
    ensures Built(rhs, i, p, r)
  {
    StitchRoots(rhs, i, p, q, r);
    assert r.kids[..i] == r.kids[..i - 1] + [q.kids[0]];
    StitchFilters(p, q, r, q.kids[0], r.kids[..i - 1], i);
  }

  /** The inductive step of `PopRhsChildren`: the children and their roots. */
  lemma StitchRoots(rhs: seq<Term>, i: nat, p: Pop, q: Pop, r: Pop)
    requires 1 <= i <= |rhs|
    requires |q.kids| == |p.kids| + 1 && q.kids[1..] == p.kids && RootIs(q.kids[0], rhs[i - 1])
    requires |r.kids| == i - 1 + |q.kids| && r.kids[i - 1..] == q.kids
    requires forall j :: 0 <= j < i - 1 ==> RootIs(r.kids[j], rhs[j])
    ensures |r.kids| == i + |p.kids| && r.kids[i..] == p.kids
    ensures forall j :: 0 <= j < i ==> RootIs(r.kids[j], rhs[j])
  {
    assert r.kids[i - 1] == q.kids[0];
    assert r.kids[i..] == q.kids[1..];
  }

  /** The inductive step of `PopRhsChildren`: the subtrees and the leaves. */
  lemma StitchFilters(p: Pop, q: Pop, r: Pop, k: Tree, built: seq<Tree>, i: nat)
    requires 1 <= i <= |r.kids| && r.kids[..i] == built + [k]
    requires p.forest == q.forest + Subtrees([k]) && q.forest == r.forest + Subtrees(built)
    requires |p.stack| == |q.stack| + 1 && q.stack == p.stack[..|q.stack|] && |r.stack| <= |q.stack|
    requires LeavesOf([k]) == TokenLeaves([Top(p.stack)])
    requires LeavesOf(built) == TokenLeaves(q.stack[|r.stack|..])
    ensures p.forest == r.forest + Subtrees(r.kids[..i])
    ensures LeavesOf(r.kids[..i]) == TokenLeaves(p.stack[|r.stack|..])
  {
    FiltersAppend(built, [k]);
    assert p.stack[|r.stack|..] == q.stack[|r.stack|..] + [Top(p.stack)];
    TokenLeavesAppend(q.stack[|r.stack|..], [Top(p.stack)]);
  }

  /** The check a popped item passes against a right-hand term: a token of that terminal kind, or that non-terminal. */
  predicate ItemMatches(x: Item, t: Term) {
    match x.symbol
    case Bottom => false
    case TokenItem(tok) => t == Terminal(tok.kind)
    case NtItem(nt) => t == NonTerminal(nt)
  }

  /** The items match the terms one for one. */
  predicate Matches(items: seq<Item>, terms: seq<Term>) {
    |items| == |terms| && forall j :: 0 <= j < |items| ==> ItemMatches(items[j], terms[j])
  }

  lemma MatchesSnoc(a: seq<Item>, x: Item, s: seq<Term>, t: Term)
    requires |a| == |s|
    ensures Matches(a + [x], s + [t]) <==> Matches(a, s) && ItemMatches(x, t)
  {
    if Matches(a + [x], s + [t]) {
      forall j | 0 <= j < |a| ensures ItemMatches(a[j], s[j]) {
        assert (a + [x])[j] == a[j] && (s + [t])[j] == s[j];
      }
      assert (a + [x])[|a|] == x && (s + [t])[|a|] == t;
    }
  }

  /** The pops all succeed exactly when the top `i` items match `rhs[..i]`. */
  lemma {:induction false} PopRhsMatches(rhs: seq<Term>, i: nat, p: Pop)
    requires i <= |rhs| && Mirrors(p.stack, p.forest) && p.ok
    ensures PopRhs(rhs, i, p).ok <==> i <= |p.stack| && Matches(p.stack[|p.stack| - i..], rhs[..i])
    decreases i
  {
    if i == 0 {
      assert p.stack[|p.stack|..] == [] && rhs[..0] == [];
    } else if p.stack != [] {
      var q := PopOne(rhs[i - 1], p);
      var top := Top(p.stack);
      assert rhs[..i] == rhs[..i - 1] + [rhs[i - 1]];
      if i <= |p.stack| {
        assert p.stack[|p.stack| - i..] == q.stack[|q.stack| - (i - 1)..] + [top];
        MatchesSnoc(q.stack[|q.stack| - (i - 1)..], top, rhs[..i - 1], rhs[i - 1]);
      }
      if q.ok {
        PopRhsMatches(rhs, i - 1, q);
      } else if i <= |p.stack| {
        assert !ItemMatches(top, rhs[i - 1]);
      }
    }
  }

  /**
   * What a reduce needs of its production: the stored count is the number of listed terms, the
   * left-hand side is a non-terminal with a goto column, and the right-hand side outweighs it.
   */
  predicate Reducible(P: Production) {
    && P.nRhs == |P.rhs| && P.lhs.NonTerminal? && P.lhs.nt in NON_TERMINALS
    && RhsWeight(P.rhs) > TermWeight(P.lhs)
  }

  /** Every production but P0 can be reduced by. */
  lemma ProductionsReducible(prod: nat)
    requires 1 <= prod < NUM_PRODUCTIONS
    ensures Reducible(Productions()[prod])
  {
    CountsMatch(prod);
    TermsIndexable(prod, 0);
    ReduceShrinks(prod);
  }

  /**
   * A reduce by production `P` (number `prod`): its `n_rhs` pops, then, if they all matched, the
   * node with the popped symbols as children appended to the forest and the left-hand side pushed
   * with the state the goto table gives for the uncovered top. `false` means the step rejects; the
   * config then is what the pops left and nothing is recorded.
   */
  function Reduce(tb: Tables, c: Config, P: Production, prod: nat): (r: (bool, Config))
    requires Inv(tb, c) && Reducible(P)
    ensures r.0 ==> Inv(tb, r.1) && Weight(r.1.stack) < Weight(c.stack)
    ensures r.1.stackTrace == c.stackTrace + (if r.0 then [r.1.stack] else [])
    ensures r.1.opTrace == c.opTrace + (if r.0 then [Reduced(prod)] else [])
  {
    var q := PopRhs(P.rhs, P.nRhs, Pop(true, c.stack, c.forest, []));
    if !q.ok then (false, Config(q.stack, q.forest, c.stackTrace, c.opTrace))
    else
      assert q.stack[0] == c.stack[0];
      var g := GotoGet(tb, Top(q.stack).state, P.lhs.nt);
      var stack := q.stack + [Item(NtItem(P.lhs.nt), g.value)];
      assert P.rhs[..P.nRhs] == P.rhs;
      ReduceOk(tb, c, q, P.lhs.nt, g.value, prod, RhsWeight(P.rhs));
      (true, Config(stack, q.forest + [Tree(Some(NtSymbol(P.lhs.nt)), NonTerminalNode, q.kids)],
                    c.stackTrace + [stack], c.opTrace + [Reduced(prod)]))
  }

  /** A reduce succeeds exactly when the `n_rhs` items above the bottom marker match the right-hand side. */
  lemma ReduceMatches(tb: Tables, c: Config, P: Production, prod: nat)
    requires Inv(tb, c) && Reducible(P)
    ensures var n := |P.rhs|;
      Reduce(tb, c, P, prod).0 <==> n < |c.stack| && Matches(c.stack[|c.stack| - n..], P.rhs)
  {
    var p0 := Pop(true, c.stack, c.forest, []);
    assert P.rhs[..P.nRhs] == P.rhs;
    PopRhsMatches(P.rhs, P.nRhs, p0);
  }

  /**
   * A successful reduce leaves the uncovered stack with the left-hand side pushed in its goto
   * state, and a new last subtree rooted at the left-hand side whose children are the right-hand
   * terms in order: the popped tokens as leaves and the subtrees taken off the end of the forest.
   */
  lemma ReduceBuilds(tb: Tables, c: Config, P: Production, prod: nat)
    requires Inv(tb, c) && Reducible(P) && Reduce(tb, c, P, prod).0
    ensures var r := Reduce(tb, c, P, prod); var n := |P.rhs|;
      && n < |c.stack|
      && var k := |c.stack| - n;
        var node := r.1.forest[|r.1.forest| - 1];
        && r.1.stack == c.stack[..k] + [Item(NtItem(P.lhs.nt), GotoGet(tb, c.stack[k - 1].state, P.lhs.nt).value)]
        && node.symbol == Some(NtSymbol(P.lhs.nt)) && node.ty == NonTerminalNode
        && |node.children| == n && (forall j :: 0 <= j < n ==> RootIs(node.children[j], P.rhs[j]))
        && c.forest == r.1.forest[..|r.1.forest| - 1] + Subtrees(node.children)
        && LeavesOf(node.children) == TokenLeaves(c.stack[k..])
  {
    var p0 := Pop(true, c.stack, c.forest, []);
    var q := PopRhs(P.rhs, P.nRhs, p0);
    ReduceMatches(tb, c, P, prod);
    assert P.rhs[..P.nRhs] == P.rhs;
    PopRhsChildren(P.rhs, P.nRhs, p0);
    assert q.kids[..|P.rhs|] == q.kids;
  }

  lemma NtItemsPush(stack: seq<Item>, x: Item)
    ensures NtItems(stack + [x]) == NtItems(stack) + (if x.symbol.NtItem? then [x.symbol.nt] else [])
    ensures Weight(stack + [x]) == Weight(stack) + ItemWeight(x)
  {
    assert (stack + [x])[..|stack|] == stack;
  }

  /** Pushing a non-terminal together with a subtree rooted at it keeps the forest mirroring the stack. */
  lemma MirrorsPushNt(stack: seq<Item>, forest: seq<Tree>, nt: char, g: nat, kids: seq<Tree>)
    requires Mirrors(stack, forest)
    ensures Mirrors(stack + [Item(NtItem(nt), g)], forest + [Tree(Some(NtSymbol(nt)), NonTerminalNode, kids)])
  {
    NtItemsPush(stack, Item(NtItem(nt), g));
    var f := forest + [Tree(Some(NtSymbol(nt)), NonTerminalNode, kids)];
    var nts := NtItems(stack) + [nt];
    forall j | 0 <= j < |f| ensures f[j].symbol == Some(NtSymbol(nts[j])) && f[j].ty == NonTerminalNode {
      if j < |forest| {
        assert f[j] == forest[j] && nts[j] == NtItems(stack)[j];
      }
    }
  }

  /** A non-empty prefix of a good stack with a non-bottom item of a known state pushed is good. */
  lemma StackOkPrefixPush(stack: seq<Item>, k: nat, x: Item, n: nat)
    requires StackOk(stack, n) && 1 <= k <= |stack| && !x.symbol.Bottom? && x.state < n
    ensures StackOk(stack[..k] + [x], n)
  {
  }

  /** After a matching pop, pushing the left-hand side keeps the invariant and lowers the weight. */
  lemma ReduceOk(tb: Tables, c: Config, q: Pop, lhs: char, g: nat, prod: nat, popped: nat)
    requires Inv(tb, c) && g < |tb.shiftReduce|
    requires 1 <= |q.stack| <= |c.stack| && q.stack == c.stack[..|q.stack|] && Mirrors(q.stack, q.forest)
    requires Weight(c.stack) == Weight(q.stack) + popped && popped > TermWeight(NonTerminal(lhs))
    ensures var stack := q.stack + [Item(NtItem(lhs), g)];
      && Inv(tb, Config(stack, q.forest + [Tree(Some(NtSymbol(lhs)), NonTerminalNode, q.kids)], c.stackTrace + [stack], c.opTrace + [Reduced(prod)]))
      && Weight(stack) < Weight(c.stack)
  {
    NtItemsPush(q.stack, Item(NtItem(lhs), g));
    MirrorsPushNt(q.stack, q.forest, lhs, g, q.kids);
    StackOkPrefixPush(c.stack, |q.stack|, Item(NtItem(lhs), g), |tb.shiftReduce|);
  }

  /**
   * `slr_parser_step` on token `tok`, as the parser state it returns and the config it leaves:
   * a shift pushes the token in the target state; a reduce by P0 pushes it and accepts; a reduce
   * by another production re-dispatches the same token on the reduced config; any other cell
   * pushes the token in state 0 and rejects with a syntax error.
   */
  function StepSpec(tb: Tables, c: Config, tok: Token): (r: (ParserState, Config))
    requires Inv(tb, c) && HasColumn(tok.kind)
    decreases Weight(c.stack)
  {
    var op := ShiftReduceGet(tb, Top(c.stack).state, tok.kind);
    if op.ty == ShiftOp then (Idle, PushToken(c, tok, op.value, Shifted(op.value)))
    else if op.ty == ReduceOp && op.value == 0 then (Accept, PushToken(c, tok, 0, Accepted))
    else if op.ty == ReduceOp then
      ProductionsReducible(op.value);
      var red := Reduce(tb, c, Productions()[op.value], op.value);
      if !red.0 then (Reject, red.1) else StepSpec(tb, red.1, tok)
    else (Reject, PushToken(c, tok, 0, SyntaxError))
  }

  /**
   * What one step guarantees about its result `r` from `c`: both traces only grow and stay equally
   * long; unless it rejects, the invariant holds again and something was recorded; a shift or an
   * accept ends with the token on top, in the shift's target state or in state 0, and records that
   * as its last operation.
   */
  ghost predicate StepPost(tb: Tables, c: Config, tok: Token, r: (ParserState, Config)) {
    && |r.1.stackTrace| == |r.1.opTrace|
    && |c.opTrace| <= |r.1.opTrace| && r.1.opTrace[..|c.opTrace|] == c.opTrace
    && |c.stackTrace| <= |r.1.stackTrace| && r.1.stackTrace[..|c.stackTrace|] == c.stackTrace
    && (r.0 != Reject ==> Inv(tb, r.1) && |r.1.opTrace| > |c.opTrace|)
    && (r.0 == Idle ==> Top(r.1.stack).symbol == TokenItem(tok) && r.1.opTrace[|r.1.opTrace| - 1] == Shifted(Top(r.1.stack).state))
    && (r.0 == Accept ==> Top(r.1.stack) == Item(TokenItem(tok), 0) && r.1.opTrace[|r.1.opTrace| - 1] == Accepted)
  }

  lemma {:induction false} StepOutcome(tb: Tables, c: Config, tok: Token)
    requires Inv(tb, c) && HasColumn(tok.kind)
    ensures StepPost(tb, c, tok, StepSpec(tb, c, tok))
    decreases Weight(c.stack)
  {
    var op := ShiftReduceGet(tb, Top(c.stack).state, tok.kind);
    if op.ty == ReduceOp && op.value != 0 {
      ProductionsReducible(op.value);
      var red := Reduce(tb, c, Productions()[op.value], op.value);
      if red.0 {
        assert StepSpec(tb, c, tok) == StepSpec(tb, red.1, tok);
        StepOutcome(tb, red.1, tok);
        StepPostChain(tb, c, red.1, tok, StepSpec(tb, red.1, tok));
      } else {
        assert StepSpec(tb, c, tok) == (Reject, red.1);
        assert red.1.opTrace[..|c.opTrace|] == c.opTrace;
        assert red.1.stackTrace[..|c.stackTrace|] == c.stackTrace;
      }
    } else {
      StepPushes(tb, c, tok);
    }
  }

  /** The steps that push the token and stop. */
  lemma StepPushes(tb: Tables, c: Config, tok: Token)
    requires Inv(tb, c) && HasColumn(tok.kind)
    requires var op := ShiftReduceGet(tb, Top(c.stack).state, tok.kind); !(op.ty == ReduceOp && op.value != 0)
    ensures StepPost(tb, c, tok, StepSpec(tb, c, tok))
  {
    var op := ShiftReduceGet(tb, Top(c.stack).state, tok.kind);
    var top := if op.ty == ShiftOp then op.value else 0;
    var rec := if op.ty == ShiftOp then Shifted(op.value) else if op.ty == ReduceOp then Accepted else SyntaxError;
    var r := PushToken(c, tok, top, rec);
    assert StepSpec(tb, c, tok).1 == r;
    PushTokenOk(tb, c, tok, top, rec);
    assert r.opTrace[..|c.opTrace|] == c.opTrace;
    assert r.stackTrace[..|c.stackTrace|] == c.stackTrace;
  }

  /** A successful reduce followed by a step from its config: the step's guarantees from the start. */
  lemma StepPostChain(tb: Tables, c: Config, mid: Config, tok: Token, r: (ParserState, Config))
    requires |mid.opTrace| == |c.opTrace| + 1 && mid.opTrace[..|c.opTrace|] == c.opTrace
    requires |mid.stackTrace| == |c.stackTrace| + 1 && mid.stackTrace[..|c.stackTrace|] == c.stackTrace
    requires StepPost(tb, mid, tok, r)
    ensures StepPost(tb, c, tok, r)
  {
    assert r.1.opTrace[..|c.opTrace|] == r.1.opTrace[..|mid.opTrace|][..|c.opTrace|];
    assert r.1.stackTrace[..|c.stackTrace|] == r.1.stackTrace[..|mid.stackTrace|][..|c.stackTrace|];
  }

  /** A stack whose only non-terminal is `S` comes with a forest of exactly one tree, rooted at `S`. */
  lemma SingleTree(stack: seq<Item>, forest: seq<Tree>)
    requires Mirrors(stack, forest) && NtItems(stack) == ['S']
    ensures |forest| == 1 && forest[0].symbol == Some(NtSymbol('S')) && forest[0].ty == NonTerminalNode
  {
  }

  /**
   * Accepting with the bottom marker and `S` under the token (the configuration in which an SLR
   * table for this grammar accepts) leaves a forest of exactly one tree, rooted at `S`.
   */
  lemma AcceptLeavesOneTree(tb: Tables, c: Config, tok: Token, q: nat)
    requires Inv(tb, c) && HasColumn(tok.kind) && StepSpec(tb, c, tok).0 == Accept
    requires StepSpec(tb, c, tok).1.stack == [Item(Bottom, 0), Item(NtItem('S'), q), Item(TokenItem(tok), 0)]
    ensures var f := StepSpec(tb, c, tok).1.forest;
      |f| == 1 && f[0].symbol == Some(NtSymbol('S')) && f[0].ty == NonTerminalNode
  {
    var r := StepSpec(tb, c, tok);
    StepOutcome(tb, c, tok);
    assert Inv(tb, r.1);
    var st := r.1.stack;
    assert st[..2][..1][..0] == [];
    assert NtItems(st[..2][..1]) == [] by {
      assert st[..2][..1] == [Item(Bottom, 0)];
    }
    assert NtItems(st[..2]) == ['S'];
    assert NtItems(st) == ['S'];
    SingleTree(st, r.1.forest);
  }

  /**
   * `SLRParser`: the tables, the stack, the two traces and the forest root, whose children are
   * the finished subtrees. The grammar is the fixed one of parser.h.
   */
  class SlrParser {
    const tables: Tables
    var stack: seq<Item>
    var stackTrace: seq<seq<Item>>
    var opTrace: seq<TraceOp>
    var forest: ParseTreeNode?

    /** The parser's state as a value. */
    function State(): Config
      reads this, forest
      requires forest != null
    {
      Config(stack, forest.children, stackTrace, opTrace)
    }

    ghost predicate Valid()
      reads this, forest
    {
      forest != null && Inv(tables, State())
    }

    /** `slr_parser_init`: the bottom marker in state 0, one entry in each trace, a forest root without children. */
    constructor (tb: Tables)
      requires WellFormed(tb)
      ensures Valid() && State() == InitConfig() && tables == tb && fresh(forest)
    {
      tables := tb;
      stack := [Item(Bottom, 0)];
      stackTrace := [[Item(Bottom, 0)]];
      opTrace := [Started];
      forest := new ParseTreeNode(None, NonTerminalNode);
    }

    /**
     * The reduce branch of `slr_parser_step` up to the re-dispatch: the pop loop over the
     * right-hand side from its last term, building the node with `add_first`, then `add_last`
     * to the forest and the goto push.
     */
    method ReduceBy(P: Production, prod: nat) returns (ok: bool)
      requires Valid() && Reducible(P)
      modifies this, forest
      ensures forest == old(forest)
      ensures (ok, State()) == Reduce(tables, old(State()), P, prod)
    {
      var node := new ParseTreeNode(Some(NtSymbol(P.lhs.nt)), NonTerminalNode);
      ok := PopAll(P, node);
      if !ok {
        return;
      }
      forest.AddLast(node.Value());
      assert stack[0] == old(stack)[0];
      var g := GotoGet(tables, Top(stack).state, P.lhs.nt);
      stack := stack + [Item(NtItem(P.lhs.nt), g.value)];
      stackTrace := stackTrace + [stack];
      opTrace := opTrace + [Reduced(prod)];
      return true;
    }

    /** The pop loop of a reduce: one pass per right-hand term, from the last one down. */
    method PopAll(P: Production, node: ParseTreeNode) returns (ok: bool)
      requires forest != null && node != forest && Mirrors(stack, forest.children)
      requires P.nRhs == |P.rhs| && node.children == []
      modifies this, forest, node
      ensures forest == old(forest) && stackTrace == old(stackTrace) && opTrace == old(opTrace)
      ensures Pop(ok, stack, forest.children, node.children)
        == PopRhs(P.rhs, P.nRhs, Pop(true, old(stack), old(forest.children), []))
    {
      ghost var p0 := Pop(true, stack, forest.children, []);
      ok := true;
      var i: int := P.nRhs - 1;
      while i >= 0
        invariant -1 <= i < P.nRhs
        invariant forest == old(forest) && forest != null
        invariant Mirrors(stack, forest.children)
        invariant PopRhs(P.rhs, P.nRhs, p0) == PopRhs(P.rhs, i + 1, Pop(true, stack, forest.children, node.children))
        invariant stackTrace == old(stackTrace) && opTrace == old(opTrace)
        decreases i
      {
        ghost var before := Pop(true, stack, forest.children, node.children);
        ok := PopInto(P.rhs[i], node);
        assert PopRhs(P.rhs, i + 1, before) == if ok then PopRhs(P.rhs, i, PopOne(P.rhs[i], before)) else PopOne(P.rhs[i], before);
        if !ok {
          return;
        }
        i := i - 1;
      }
    }

    /**
     * One pass of the pop loop: the top item is removed; a matching token is added first to
     * `node` as a leaf, a matching non-terminal brings the forest's last subtree along.
     */
    method PopInto(term: Term, node: ParseTreeNode) returns (ok: bool)
      requires forest != null && node != forest && Mirrors(stack, forest.children)
      modifies this, forest, node
      ensures forest == old(forest) && stackTrace == old(stackTrace) && opTrace == old(opTrace)
      ensures Pop(ok, stack, forest.children, node.children)
        == PopOne(term, Pop(true, old(stack), old(forest.children), old(node.children)))
    {
      if stack == [] {
        return false;
      }
      var last := Top(stack);
      NtItemsPush(stack[..|stack| - 1], last);
      assert stack[..|stack| - 1] + [last] == stack;
      stack := stack[..|stack| - 1];
      match last.symbol {
        case Bottom =>
          return false;
        case TokenItem(t) =>
          if term != Terminal(t.kind) {
            return false;
          }
          node.AddFirst(Leaf(t));
        case NtItem(nt) =>
          if term != NonTerminal(nt) {
            return false;
          }
          var sub := forest.RemoveLast();
          node.AddFirst(sub.value);
      }
      return true;
    }

    /** Pushing the token in state `q` and recording the stack and `op`. */
    method Push(tok: Token, q: nat, op: TraceOp)
      requires forest != null
      modifies this
      ensures forest == old(forest) && State() == PushToken(old(State()), tok, q, op)
    {
      stack := stack + [Item(TokenItem(tok), q)];
      stackTrace := stackTrace + [stack];
      opTrace := opTrace + [op];
    }

    /** `slr_parser_step`: one token, through every reduce it triggers, to a shift, an accept or a reject. */
    method Step(tok: Token) returns (st: ParserState)
      requires Valid() && HasColumn(tok.kind)
      modifies this, forest
      ensures forest == old(forest)
      ensures (st, State()) == StepSpec(tables, old(State()), tok)
      decreases Weight(stack)
    {
      var op := ShiftReduceGet(tables, Top(stack).state, tok.kind);
      if op.ty == ShiftOp {
        Push(tok, op.value, Shifted(op.value));
        return Idle;
      } else if op.ty == ReduceOp {
        if op.value == 0 {
          Push(tok, 0, Accepted);
          return Accept;
        }
        ProductionsReducible(op.value);
        var ok := ReduceBy(Productions()[op.value], op.value);
        if !ok {
          return Reject;
        }
        st := Step(tok);
      } else {
        Push(tok, 0, SyntaxError);
        return Reject;
      }
    }

    /** `slr_parser_parse_tree`: the forest root moves into a new parse tree and the parser keeps none. */
    method TakeParseTree() returns (tree: ParseTree)
      modifies this
      ensures forest == null && tree.root == old(forest) && fresh(tree)
      ensures stack == old(stack) && stackTrace == old(stackTrace) && opTrace == old(opTrace)
    {
      tree := new ParseTree(forest);
      forest := null;
    }
  }
}
