# mini-compiler, modelled in Dafny

This project models a small compiler front end for a toy functional language. It has five parts:

- **Lexer.** A table-driven lexer that works a byte at a time. A 9-state automaton is stepped over `TABLE[byte][state]`. A boundary rule looks one byte ahead. The cursor loop of `lexer_next_token` skips whitespace and tracks lines and columns.
- **Parser.** An SLR(1) shift/reduce/goto machine over the grammar P0–P18. It keeps a stack of items and builds a forest of parse trees as it reduces.
- **Parse-tree nodes.** Each node holds an ordered list of children.
- **Symbol table.** An AVL tree of keys ordered by a comparator.
- **Table generator.** The Python script that turns an SLR table in CSV form into the C initialisers of the two tables.

The tables are parameters of the parser. The model also covers the glue loop that the parser test uses to feed tokens to the parser, and the two parser helpers `log10u` and `string_builder_append`.

State that the source mutates is modelled as classes with `modifies` clauses: the automaton, the lexer, the parser, the parse-tree nodes, the symbol table's handle, the string builder and the table builder. Each class is proved against a specification function over values:

- `NextSpec` for one lexer call;
- `StepSpec` for one parser step;
- `Insert` and `Delete` for the AVL tree;
- `RowTexts` and `TableText` for the builder.

The properties the code promises are then proved about those functions.

Files, in dependency order:

| file | module | what it models |
|---|---|---|
| `wrappers.dfy` | `Wrappers` | `Option` and `Result` |
| `bytes.dfy` | `Bytes` | bytes, `isdigit`/`isalpha`/`isspace` in the C locale, C strings |
| `dfa.dfy` | `Automaton` | `struct DFA` and `dfa_reset`, `dfa_next`, `dfa_is_accept`, `dfa_matches` |
| `lexer_table.dfy` | `LexerTable` | `TABLE`, `ACCEPTS` and the start state of lexer.h, and what each state accepts |
| `lexer.dfy` | `Lexer` | token kinds, `get_token_type`, `need_to_check_dfa`, the `lexer_next_token` loop as functions and as the `Lexer` class |
| `lexer_properties.dfy` | `LexerProperties` | the shape of every token a call returns, and the end-of-file behaviour |
| `lexer_pieces.dfy` | `LexerPieces` | the lexing outcomes the test suites assert |
| `grammar.dfy` | `Grammar` | `Production`, P0–P18, `grammar_init`/`grammar_new` |
| `parse_tree.dfy` | `ParseTrees` | `ParseTreeNode` and `ParseTree` of parse_tree.c |
| `slr.dfy` | `Slr` | table lookups, the parser's stack and forest, `slr_parser_step`, the `SlrParser` class |
| `driver.dfy` | `ParserDriver` | the `check_src` loop of tests/parser_test.c |
| `shipped_tables.dfy` | `ShippedTables` | the two tables as parser.h defines them |
| `parser_helpers.dfy` | `ParserHelpers` | `log10u` and `StringBuilder` with `string_builder_append` |
| `symbol_table.dfy` | `SymbolTable` | the AVL tree of symbol_table.c |
| `slr_table.dfy` | `TableGenerator` | `parse_ops`, `Builder` and the row routing of table/SLR.py |

Where the header and the code disagree, the model follows the code.

- **Token kinds.** lexer.h:13-32 has no `Literal` or `Invalid` kind, but lexer.c uses both. The model's kinds follow lexer.c, with `Literal` before the others and `Invalid` last.
- **Spans.** The header's `Span` has no line or column, but lexer.c:121-127 builds one with them. The model keeps all four fields.
- **`NatLit`.** The grammar's `NatLit` terminal (parser.h:147,156) is the lexer's `Literal` kind. `Literal` is the only literal kind the lexer emits and the only one the column map knows (parser.c:269).

## Model

| member | source | states |
|---|---|---|
| Automaton.Dfa.constructor | lexer.h:198-204 | the automaton holds the given table, start and accepting states, and sits at its start state |
| Automaton.Dfa.Reset | lexer.c:29 | the state is the start state |
| Automaton.Dfa.Next | lexer.c:31-33 | the new state is `table[c][old state]` |
| Automaton.Dfa.IsAccept | lexer.c:35-41 | true exactly when the current state is one of the accepting states |
| Automaton.Dfa.Matches | lexer.c:43-52 | runs the bytes of the C string from the current state, not from start; the answer is whether the state reached is accepting; the automaton ends at its start state |
| LexerTable.TableWellFormed | lexer.h:68-196 | the table has 256 rows of 9 states in range, and row `b` is the transcribed row for byte `b` |
| LexerTable.StepIsTable | lexer.h:68-196 | the column-wise transition function agrees with the table at every state and byte |
| LexerTable.RunFromIsRun | lexer.h:198-204 | running the lexer table from any state is the generic automaton run of `dfa_next`; `Run` is `dfa_next` applied byte by byte (lexer.c:31-33) |
| LexerTable.DeadState | lexer.h:68-196 | no byte leaves state 0, and 0 is not accepting |
| LexerTable.FinalStates | lexer.h:68-196 | states 4, 7 and 8 go to 0 on every byte, so they accept only the empty continuation |
| LexerTable.NumeralState | lexer.h:85-97 | from state 2, a run stays in 2 exactly when every byte is a digit, and reaches 0 otherwise |
| LexerTable.WordState | lexer.h:93-130 | from state 5, a run stays in 5 exactly when every byte is a letter, a digit or `_`, and reaches 0 otherwise |
| LexerTable.CommentState | lexer.h:114-115 | from state 6, a run stays in 6 without `]`, reaches 7 when the first `]` is the last byte, and reaches 0 otherwise |
| LexerTable.ArrowState | lexer.h:91-100 | from state 3, only `>` goes on, to state 4 |
| LexerTable.AcceptsExactly | lexer.h:65-204 | from the start state the automaton accepts exactly the words made of bytes that keep it at start, followed by a non-zero numeral, `0`, a word, `->`, one punctuation byte or a closed comment |
| Lexer.GetTokenType | lexer.c:137-184 | a classified lexeme is never Eof or Invalid |
| Lexer.GetTokenTypeCases | lexer.c:137-184 | the three stages, each in both directions: the first byte decides the punctuation kinds, Arrow and Comment; otherwise `fun`, `bool` and `nat` are the keywords, `T`/`F` and digit-led lexemes are Literal, and the rest are Identifier |
| LexerPieces.NextLexeme | lexer.c:186-211 | `need_to_check_dfa`, with the mode `NextMode` picks from the lexeme's first byte (lexer.c:271-283), ends every lexeme that does not open a comment at `LexemeEnd`, a position defined from the byte classes alone: after the run of letters and digits that a letter starts, after the run of digits that a digit starts, after `->`, and otherwise after the single byte. The token's lexeme is that slice and the next call resumes fresh just after it |
| Lexer.Emit | lexer.c:317-339 | emitting leaves `start == end == old end + 1` with the automaton reset, and the token is never Eof |
| Lexer.MakeToken | lexer.c:317-332 | the token built for `src[start..end]` is never Eof; it is Invalid exactly when the automaton rejected; when those bytes lie in the buffer and hold no NUL, the lexeme that `strncpy` copies is exactly that slice |
| Lexer.Iterate | lexer.c:270-348 | one loop pass keeps the lexer state consistent; going on never moves `start` past `cursor + 1`; emitting moves `start` forward |
| Lexer.Scan | lexer.c:270-351 | the loop never moves `start` back, and a real token moves it forward |
| Lexer.NextSpec | lexer.c:260-352 | one call never moves `start` back; a real token was found at or before `len` and moves `start` forward |
| Bytes.CString | lexer.c:253 | the C string stored in a buffer is a NUL-free prefix of it, followed by a NUL when shorter than the buffer |
| Bytes.StrLen | lexer.c:253 | `strlen` of a terminated buffer is the index of its first NUL, and every byte before it is not NUL |
| Bytes.CopyString | lexer.c:320-322 | `strncpy` of `n` bytes with a NUL stored after them reads back as at most `n` bytes and no NUL, and as exactly the `n` bytes when they lie in the buffer and hold no NUL |
| Bytes.ClassesListed | lexer.c:276-292 | in the "C" locale `isdigit` holds for the ten digits and `isspace` for space, `\t`, `\n`, `\v`, `\f` and `\r`; no byte is both a digit and a letter, no whitespace byte is alphanumeric, and NUL is not whitespace |
| Lexer.Lexer.constructor | lexer.c:246-258 | the lexer holds the text with its NUL, `len` is its `strlen`, and the state is `start = end = 0`, line 1, column 1, automaton at start |
| Lexer.Lexer.TakeToken | lexer.c:317-340 | the token and the new state are those of `Emit` |
| Lexer.Lexer.Advance | lexer.c:271-348 | one pass of the cursor loop on the object is `Iterate` on its state |
| Lexer.Lexer.NextToken | lexer.c:260-352 | `lexer_next_token` on the object returns the token of `NextSpec`, and leaves the state that `NextSpec` gives |
| LexerProperties.ScanShape | lexer.c:270-351 | the loop started on a fresh state returns what `NextOk` describes |
| LexerProperties.NextTokenShape | lexer.c:260-352 | every call from a fresh state returns what `NextOk` describes: for a real token, its lexeme is `src[start..end]` of its span, inclusive; only whitespace comes before it; the next call resumes fresh at `end + 1`; its kind is Invalid exactly when the automaton rejects the lexeme, and otherwise `get_token_type` decides it; a `[` lexeme runs to the first `]`. End of file comes after whitespace only, or inside an unclosed comment, which leaves `start` at the `[` and the automaton in state 6 |
| LexerProperties.EofForever | lexer.c:263-266 | once `start > len`, every call returns the end-of-file token and changes nothing; that token, `EofToken`, is `eof_token` (lexer.c:54-61): an empty lexeme, no span, kind Eof |
| LexerProperties.WhitespaceOnlyIsEof | lexer.c:291-351 | a whitespace-only or empty rest of the source yields end of file at once, with `start` past `len` |
| LexerProperties.SkipBlank | lexer.c:291-306 | skipping a blank byte moves to the next line and column 1 on a newline, and one column right otherwise; the call goes on as if it had started after that byte |
| LexerPieces.PeekIsNext | lexer.c:287 | before `len`, the byte peeked is the next byte of the buffer: a real byte before `len - 1` and the terminating NUL at `len - 1` |
| LexerPieces.FuzzTokens | compiler-testsuite/crates/compiler-test/src/lexer_fuzz.rs:103-120 | lexing the joined pieces of the fuzz generator gives exactly the non-whitespace pieces as lexemes, in order, each classified by `get_token_type` |
| LexerPieces.AbcIsOneToken | compiler-testsuite/crates/mini-compiler-rs/src/lexer.rs:52-56 | `"abc"` lexes to exactly one token |
| LexerPieces.NumeralThenLetterSplits | lexer.c:195-200 | `1a` lexes to the Literal `1` and the Identifier `a` |
| LexerPieces.UnderscoreSplits | lexer.c:192-194 | `a_b` lexes to `a`, an Invalid `_` and `b`, although the table continues words on `_` |
| LexerPieces.MatchesLexerTable | lexer.c:43-52 | on a NUL-free text from the start state, `dfa_matches` on the lexer table accepts exactly when the lexer table's run does |
| LexerPieces.TableTestWords | tests/dfa_test.c:13-19 | the lexer table accepts `abc` and `0` and rejects `00` and `0 ` |
| LexerPieces.DfaTest | tests/dfa_test.c:4-21 | a fresh automaton over the lexer table matches `abc` and `0`, and does not match `00` or `0 ` |
| Grammar.ProductionsAtIndices | parser.h:197-219 | 19 productions are stored at indices 0–18, and P0 is S' → S stored with left-hand side `S` and one term; `Productions` lists P0–P18 as parser.h:36-191 defines them |
| Grammar.CountsMatch | parser.h:36-195 | every production's `n_rhs` is the number of terms it lists, between 1 and 5, and exactly P3, P8 and P15 have 5 |
| Grammar.TermsIndexable | parser.h:36-195 | every left-hand side is one of the nine non-terminals; every right-hand term is a listed non-terminal or a terminal with a shift-reduce column other than end of file |
| Grammar.EveryNonTerminalDefined | parser.h:36-195 | each of S F A T C E I B R is the left-hand side of some production |
| Grammar.StoredRhsOutOfBounds | parser.c:162-187 | as written, storing a production by struct assignment (`StoredAsWritten`, parser.c:44-68) keeps its `n_rhs` and `lhs` and no right-hand terms, so every index the reduce loop reads in `prod.rhs` lies outside the stored terms |
| ParseTrees.RemovedLast | parse_tree.c:37-45 | with no children, nothing is taken and the children stay; otherwise the last child is taken, and the rest followed by it are the old children |
| ParseTrees.RemoveLastUndoesAddLast | parse_tree.c:30-45 | `remove_last` after `add_last` gives back the child added and the old children |
| ParseTrees.ParseTreeNode.constructor | parse_tree.c:15-21 | a new node has the given symbol and kind, and no children |
| ParseTrees.ParseTreeNode.AddFirst | parse_tree.c:23-28 | the child goes first and the other children keep their order |
| ParseTrees.ParseTreeNode.AddLast | parse_tree.c:30-35 | the child goes last and the other children keep their order |
| ParseTrees.ParseTreeNode.RemoveLast | parse_tree.c:37-45 | the result and the new children are those of `RemovedLast` |
| ParseTrees.ParseTree.constructor | parse_tree.c:3-7 | the given node is the root |
| Slr.TerminalColumn | parser.c:234-292 | each of the 16 kinds with a column maps to a column below 16 that lists that kind |
| Slr.NonTerminalColumn | parser.c:294-330 | each of the nine non-terminals maps to a column below 9 that lists it |
| Slr.ColumnsBijective | parser.c:238-328 | both column maps are injective and onto their columns |
| Slr.ShiftReduceGet | parser.c:234-292 | in well-formed tables, a shift cell names a state that has a row, and a reduce cell names a production |
| Slr.GotoGet | parser.c:294-330 | in well-formed tables, a goto cell names a state that has a row |
| Slr.InitOk | parser.c:96-111 | the initial configuration satisfies the parser invariant: bottom marker in state 0, empty forest, one entry in each trace; `InitConfig` is that configuration |
| Slr.PushTokenOk | parser.c:141-149 | pushing a token in a valid state keeps the parser invariant; `PushToken` appends the token item in the target state and records the new stack and the operation |
| Slr.ProductionsReducible | parser.c:162-166 | P1–P18 can be reduced by: the count matches the terms, and the left-hand side has a goto column |
| Slr.PopRhsMatches | parser.c:166-203 | the pops succeed exactly when the top `n` items, none of them the bottom marker, match the right-hand side term by term (a token of the terminal's kind, the same non-terminal) |
| Slr.PopOne | parser.c:167-202 | one pass pops at most one item and leaves the rest of the stack as it was; a successful pass popped exactly one item that is not the bottom marker, keeps stack and forest in step, leaves a prefix of the forest, and lowers the stack weight by the term's weight |
| Slr.PopRhs | parser.c:166-203 | `i` passes, from term `i - 1` down, leave a prefix of the stack; when all succeed exactly `i` items were popped, none the bottom marker, the stack and forest stay in step, and the weight drops by that of the terms |
| Slr.Reduce | parser.c:162-218 | a successful reduce keeps the invariant, makes the stack lighter, and adds one entry to each trace; a failed one adds none |
| Slr.ReduceMatches | parser.c:166-203 | a reduce succeeds exactly when the `n_rhs` items above the bottom marker match the right-hand side |
| Slr.ReduceBuilds | parser.c:164-213 | after a reduce, the uncovered stack has the left-hand side pushed in `goto[new top][lhs]`; the forest gains one last subtree rooted at the left-hand side; its children are the right-hand terms in order, with the popped tokens as leaves and the subtrees taken off the forest's end |
| Slr.StepOutcome | parser.c:134-232 | after a step, both traces only grow and stay equally long; unless the step rejects, the invariant holds and something was recorded; Idle means the token was shifted on top in the shift's state; Accept means the token is on top in state 0 and recorded as accepted. `StepSpec` is `slr_parser_step` on values: shift, accept on P0, reduce then re-dispatch, or reject |
| Slr.AcceptLeavesOneTree | tests/parser_test.c:51-60 | accepting with the bottom marker and `S` under the token leaves exactly one subtree in the forest, rooted at `S` |
| Slr.SlrParser.constructor | parser.c:96-111 | a new parser holds the initial configuration and the given tables |
| Slr.SlrParser.ReduceBy | parser.c:162-218 | the pop loop, the `add_last` to the forest and the goto push on the object are `Reduce` |
| Slr.SlrParser.PopAll | parser.c:166-203 | the whole pop loop, from the last right-hand term down, leaves the stack, forest and node children that `PopRhs` gives, and stops at the first failed pass |
| Slr.SlrParser.PopInto | parser.c:167-202 | one pass of the pop loop on the objects is `PopOne` |
| Slr.SlrParser.Push | parser.c:143-149 | pushing on the object is `PushToken` |
| Slr.SlrParser.Step | parser.c:134-232 | `slr_parser_step` on the object returns the outcome of `StepSpec`, and leaves the configuration that `StepSpec` gives |
| Slr.SlrParser.TakeParseTree | parser.c:572-576 | the forest root moves into a new parse tree and the parser keeps none |
| ParserDriver.Drive | tests/parser_test.c:38-50 | when the loop ends before the tokens run out, it ends on a state other than Idle |
| ParserDriver.IdleOnlyByShift | parser.c:134-232 | a step ends Idle only through a shift cell in the token's column |
| ParserDriver.DriveTerminates | tests/parser_test.c:38-50 | with tables that never shift at end of file, the loop ends at the latest on an end-of-file token |
| ParserDriver.CallsReachEof | lexer.c:260-352 | `len + 2 - start` lexer calls include an end-of-file token; `Calls` is the list of tokens of successive `lexer_next_token` calls |
| ParserDriver.CheckSrcTerminates | tests/parser_test.c:34-65 | with tables that never shift at end of file, `check_src` ends within one lexer call per byte of the source and its NUL, plus the end-of-file call |
| ParserDriver.DriveAsWritten | tests/parser_test.c:37-50 | as written, if the loop finishes it finishes on a state other than Idle |
| ParserDriver.LeadingCommentReadsUninitialised | tests/parser_test.c:37-50 | as written, the source `[]` reads `state` before it is assigned, whatever the tables |
| ParserDriver.AsWrittenAgrees | tests/parser_test.c:37-50 | once `state` holds Idle the loop as written is `Drive`, and it is so from the start whenever the first token is not a Comment |
| ParserDriver.CheckSrc | tests/parser_test.c:34-65 | the verdict is `Verdict` of `Drive` over the lexer's tokens, or None when the budget ran out: a passing source must be accepted with one tree, a failing one must not be accepted |
| ParserDriver.Pass | tests/parser_test.c:38-50 | one pass of the loop body on the objects is one token consumed by `Drive` |
| ShippedTables.AsShipped | parser.h:264-270 | the tables as defined are well formed |
| ShippedTables.AllEmpty | parser.h:264-265 | tables with every cell Empty are well formed and never shift at end of file |
| ShippedTables.ShippedShiftsEof | parser.h:264-265 | with the tables as defined, every end-of-file token is shifted onto state 0 and the loop goes on |
| ShippedTables.ShippedLoopsOnEmptySource | tests/parser_test.c:37-50 | with the tables as defined, `check_src` on the empty source never ends, whatever the budget |
| ShippedTables.AllEmptyRejects | parser.c:221-230 | with all-Empty tables, every step pushes the token in state 0 and rejects with a syntax error |
| ShippedTables.AllEmptyNeverAccepts | parser.c:221-230 | with all-Empty tables, the loop of `check_src` never accepts |
| ParserHelpers.Log10u | parser.c:35-42 | the result is the number of decimal digits of `n`, and 0 for 0 |
| ParserHelpers.DigitCountUnique | parser.c:35-42 | the digit count is unique |
| ParserHelpers.StringBuilder.constructor | parser.c:332-338 | a new builder is empty, with capacity 16 in a buffer of 17 |
| ParserHelpers.StringBuilder.Append | parser.c:340-354 | the contents become old ++ text with a NUL after it, and the length grows by `\|text\|`; when text and NUL do not fit, the capacity becomes twice the length needed in a fresh buffer; otherwise capacity and buffer stay |
| ParserHelpers.Reallocated | parser.c:347-349 | `realloc` gives a fresh buffer of the new size that keeps the old prefix |
| ParserHelpers.WriteString | parser.c:352 | `strcpy` at an offset writes the text and a NUL there, and keeps the bytes before it |
| SymbolTable.Height | symbol_table.c:76 | the height is -1 exactly for NULL |
| SymbolTable.UpdateHeightOk | symbol_table.c:84-89 | `updateHeight` keeps the key and children and sets the height to one more than the taller child; `UpdateHeight` is `updateHeight` on values |
| SymbolTable.RotateLeftKeeps | symbol_table.c:98-106 | a left rotation keeps the in-order key sequence and search-tree order; `RotateLeft` is `rotateLeft` returning the new root |
| SymbolTable.RotateLeftHeights | symbol_table.c:98-106 | the former right child becomes the root, and both moved nodes' heights are recomputed |
| SymbolTable.RotateRightKeeps | symbol_table.c:115-123 | a right rotation keeps the in-order key sequence and search-tree order; `RotateRight` is `rotateRight` returning the new root |
| SymbolTable.RotateRightHeights | symbol_table.c:115-123 | the former left child becomes the root, and both moved nodes' heights are recomputed |
| SymbolTable.BalanceKeeps | symbol_table.c:132-152 | `balance` keeps the in-order key sequence and search-tree order; `Balance` is `balance` returning the new root |
| SymbolTable.FixAvl | symbol_table.c:132-152 | on a node over two AVL subtrees whose heights differ by at most two, `updateHeight` then `balance` gives an AVL tree with the same keys, as tall as its taller child or one taller; when they differ by at most one nothing is rotated |
| SymbolTable.BalanceThenUpdate | symbol_table.c:177-178 | `balance(proot); updateHeight(root)` is `balance` after `updateHeight` |
| SymbolTable.NewNode | symbol_table.c:33-40 | a new node is an AVL tree of height 0 holding just its key |
| SymbolTable.InsertOk | symbol_table.c:164-180 | with an equal key present, nothing is inserted and the tree stays; otherwise the key is returned and added; either way the tree stays AVL and grows by at most one level; `Insert` is `insertNodeHelper` returning the new root |
| SymbolTable.MinNode | symbol_table.c:49-52 | the node reached holds the least key of the tree |
| SymbolTable.DeleteMinOk | symbol_table.c:61-67 | `deleteMin` removes exactly the least key, keeps the tree AVL, and lowers it by at most one level; `DeleteMin` is `deleteMin` returning the new root |
| SymbolTable.DeleteOk | symbol_table.c:219-246 | with no equal key, nothing is removed and the tree stays; otherwise that key is returned and exactly it is removed; either way the tree stays AVL and shrinks by at most one level; `Delete` is `deleteNodeHelper` returning the new root |
| SymbolTable.FindNodeHelper | symbol_table.c:192-206 | the loop ends on NULL exactly when the key is absent, and otherwise on the node holding it |
| SymbolTable.AvlTree.CreateTree | symbol_table.c:273-280 | NULL when the comparator or the destructor is missing, otherwise a fresh empty tree |
| SymbolTable.AvlTree.InsertNode | symbol_table.c:291-294 | returns NULL and changes nothing when an equal key is present; otherwise returns the key, and the key set gains it; the tree stays AVL |
| SymbolTable.AvlTree.FindNode | symbol_table.c:305-308 | the key that compares equal, or NULL exactly when there is none; the tree is not modified |
| SymbolTable.AvlTree.DeleteNode | symbol_table.c:320-325 | returns NULL and changes nothing when the key is absent; otherwise returns it, and the key set loses exactly it; the tree stays AVL |
| TableGenerator.IntToStringInverts | table/SLR.py:20 | the integer written into a cell reads back as the same integer: `ParseInt`, the model of `int`, reads `IntToString`, the model of `f"{value}"`, back |
| TableGenerator.ToCellReads | table/SLR.py:38-44 | `(op, int(text))`, with `int` modelled by `ParseInt`, reads back every integer that `f"{value}"` prints, and raises `ValueError` on an empty text, a lone sign, a text led by anything but a digit or a sign, and any text with a non-digit after its first character |
| TableGenerator.ParseOps | table/SLR.py:31-46 | an empty cell is (SLR_EMPTY, 0); only a cell led by a digit, `s` or `r` can fail |
| TableGenerator.ParseOpsInverts | table/SLR.py:31-46 | a shift, reduce or non-negative goto written in CSV form parses back to itself; empty text and an empty or negative-goto cell read as (SLR_EMPTY, 0) |
| TableGenerator.Builder.constructor | table/SLR.py:11-13 | the table and the row start empty |
| TableGenerator.Builder.PushCell | table/SLR.py:15-20 | appends `{op, value}` to the current row only |
| TableGenerator.Builder.NewLine | table/SLR.py:22-25 | appends the braced, comma-joined row to the table and empties the row |
| TableGenerator.Builder.Build | table/SLR.py:27-28 | the result is the braced, comma-joined table of the rows finished so far |
| TableGenerator.DecodeTableInverts | table/SLR.py:15-28 | the initialiser that the builder produces decodes back to exactly the rows of cells pushed; `CellText`, `RowText` and `TableText`, with `Join` for `",".join`, are that text |
| TableGenerator.TableTextInjective | table/SLR.py:15-28 | different tables of cells give different initialisers |
| TableGenerator.RouteRowSpec | table/SLR.py:54-63 | a row succeeds exactly when every column parses, skipped ones included; then the goto cells are the non-terminal columns and the shift-reduce cells are the other columns, skipping `state` and `S'`, in row order; a failure is the first column that does not parse |
| TableGenerator.PickedWidth | table/SLR.py:57-63 | each builder gets one cell per column routed to it |
| TableGenerator.RouteRowsSpec | table/SLR.py:53-66 | all rows succeed exactly when each does; then both tables have one row per CSV row, holding that row's cells; a failure is some row's failure |
| TableGenerator.RouteRowsFailsEarly | table/SLR.py:53-55 | once a prefix of the rows fails, the whole run fails with the same error |
| TableGenerator.RouteRowFailsEarly | table/SLR.py:54-55 | once a prefix of a row's columns fails, the row fails with the same error |
| TableGenerator.PushRow | table/SLR.py:54-66 | one CSV row on the two builders: on success each builder's finished rows gain the cells routed to it, and the current rows are empty again; on failure the error is the row's first failing cell |
| TableGenerator.GenerateTables | table/SLR.py:49-69 | the two printed initialisers: the shift-reduce table first, then the goto table; or the first cell that does not parse |

## Left out

- I/O: reading the source file, standard input and the CSV file, and the `main` functions. The CSV rows are a parameter of `GenerateTables`, each a sequence of (column, cell) pairs in header order, as `csv.DictReader` yields them. The two `print` calls become the result.
- Logging, `pretty_ascii`, `debug_token`, `string_builder_append_fmt`, the `stringify_*` helpers and `slr_parser_display_trace`. These are format-string printing. The traces are kept as lists of stack snapshots and of operation records instead of text.
- Memory management: `malloc`/`free`, the `destroy_*` functions and `destroyTree`. Handing a node to a parent moves the value into the tree. A NULL `children` deque and an empty one are both the empty sequence.
- The deque library: it is modelled as a Dafny `seq`.
- Automaton.Dfa: each lexer is given its own automaton over the lexer table. The source shares one static `LEXER_DFA` among all lexers, so two lexers used in turn would disturb each other's state; that sharing is not modelled.
- SymbolTable: the AVL tree is modelled on values, so the rotations return the rotated tree instead of rewriting `left`/`right` through `Node**`. Aliasing between nodes is not modelled.
- SymbolTable: keys are integers compared by a comparator that follows the sign convention of symbol_table.h:14-24. The `void *` keys themselves are not modelled. `destroy` is kept only as whether it was given.
- Slr: the stack holds tokens by value. A reduce that reaches the bottom marker rejects; the source has no branch for that item and would then read the emptied deque.
- Slr.SlrParser.Step: the source's failure to allocate is not modelled. Neither is a token kind without a column, which the source marks as unreachable; the model requires a kind with a column.
- ParserDriver.CheckSrc: the loop of `check_src` has no bound in the source. Here it runs on a budget of `fuel` lexer calls. The verdict is None when the budget ends the loop. `CheckSrcTerminates` gives a budget that always suffices when the tables never shift at end of file.
- Unsigned arithmetic: `unsigned` positions, counts and the `log10u` argument are modelled as unbounded naturals, so the model stands for sources shorter than 2^32 bytes and counts below 2^32. Beyond that the C positions (`start`, `end`, `cursor`, `token_len`) wrap modulo 2^32 and the lexer rescans from near the start of the text; that wrap-around is not modelled.
- Bytes: `isdigit`, `isalpha` and `isspace` are those of the C locale. The lexer passes them a plain `char`; where `char` is signed, a byte of 0x80 or above arrives negative, which ISO C leaves undefined. The model reads every byte unsigned and answers false for those bytes, as the C locale does on common C libraries.
- TableGenerator.ParseInt: models `int()` on ASCII text, as an optional sign followed by ASCII digits. Python also accepts surrounding whitespace, `_` between digits, and non-ASCII digits; those are not modelled.
- TableGenerator.ParseOps: `str.isdigit` is modelled for ASCII digits only. A non-ASCII digit leading a cell reads as (SLR_EMPTY, 0) instead of going to `int()`.
- The Rust bindings, the `build.rs` scripts and the random generator of the fuzz test. `LexerPieces.Generated` states which piece sequences the generator can produce; the randomness itself is not modelled.
- `tests/symbol_table_test.c`, `tests/slr_test.c` and `tests/lexer_test.c`: the first calls functions symbol_table.c does not define, and the other two assert nothing.
- The concrete 38-state SLR tables: the parser takes its tables as a parameter. The tables as parser.h defines them are in `ShippedTables`.

## Findings

| source | as written | input that shows it | evidently intended | confidence | as-written member | corrected member |
|---|---|---|---|---|---|---|
| parser.h:264-265 | `{{{SLR_EMPTY, 0}}}` initialises only cell [0][0]; every other cell is zero-filled, which is `{SLR_SHIFT, 0}` since `SLR_SHIFT` is the first enumerator (parser.h:221-226) | the empty source: each end-of-file token is shifted onto state 0, and the loop of `check_src` never ends | every cell of both placeholder tables is Empty, so every source is rejected at its first token | not executed | ShippedTables.ShippedLoopsOnEmptySource | ShippedTables.AllEmptyNeverAccepts |
| parser.h:22-26 | `Production` ends in the flexible array member `rhs[]`, so `prods[i] = Pi` (parser.c:47-65, parser.h:198-216) and the copy `Production prod = ...prods[p]` (parser.c:162) copy `n_rhs` and `lhs` but no right-hand terms; the reduce loop then reads `prod.rhs[i]` beyond what was stored | any reduce, e.g. by P17 (R → <), reads `prod.rhs[0]` outside the stored terms | each stored production carries its right-hand terms, so a reduce can match the popped items against them | not executed | Grammar.StoredRhsOutOfBounds | Slr.ReduceMatches |
| tests/parser_test.c:37-50 | `ParserState state;` is never initialised, and `continue` on a Comment jumps to the test `state == PARSER_IDLE` | the source `[]`, whose first token is a Comment: the test reads `state` before any assignment | `state` starts as `PARSER_IDLE`, so leading comments are skipped like any other | not executed | ParserDriver.LeadingCommentReadsUninitialised | ParserDriver.AsWrittenAgrees |
