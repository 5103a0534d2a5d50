# The core of Lua 5.1, verified

This project models the C core of the Lua 5.1.5 interpreter that the repository embeds (`app/jni/lua`) and proves what
that core is relied on for:

- the one-pass code generator for expressions, with jump lists that are patched backwards, against the meaning of the
  expressions and an interpreter for the instructions (`LuaCode`, `LuaDenotation`, `LuaToRegister`, `LuaOperators`,
  `LuaCodeEdits`, `LuaVM`), driven by the precedence parser (`LuaExprCompiler`, `LuaPrecedence`), with
  concatenation in batches (`LuaConcat`); what the operators compute is stated in `LuaOperatorLaws`;
- tables as finite maps: chained scatter tables with an array part, rehash, traversal and length (`LuaTable*`,
  `LuaTraversal`);
- the incremental collector with its barriers, weak tables, finalizers, open upvalues and string table, in any
  interleaving with the program (`LuaCollector`, `LuaHeap*`);
- the backtracking pattern matcher and `string.find` (`LuaPatterns`, `LuaPatternSearch`, `LuaMatch`, `LuaFind`), against
  a meaning of patterns that is given on their structure (`LuaPatternMeaning`);
- round trips: `%q` against the lexer, and dumped chunks against the loader, over streams that come in chunks
  (`LuaQuote`, `LuaZio`, `LuaChunk`, `LuaChunkRoundTrip`, `LuaDump`, `LuaUndump`, `LuaRoundTrips`), with the bytes of
  the chunk format (`LuaChunkFormat`);
- stacks that move, sorting, the references of the auxiliary library and the interning of strings (`LuaStack`,
  `LuaSort`, `LuaReferences`, `LuaStrings`).

What the C code updates in place is a class whose methods follow the C functions; each method is proved against a
specification on values, and what the interpreter promises is proved about the specification. `dafny verify
dfyconfig.toml` checks everything.

A run of the program and the collector is any sequence of calls of the methods of `LuaCollector.GlobalState`: each
method keeps its invariant, and the lemmas say what the invariant means.

## Findings

Properties that the code does not have on all inputs, with the exact condition under which it has them.

- `string.find` skips the matcher for a pattern without special characters. That is not the same for every pattern: a
  closing parenthesis is no special character, but the matcher rejects it, and a zero byte ends the pattern for the
  matcher only. Inputs: `LuaFind.PlainFindsWhatMatcherRejects` and `LuaFind.ZeroEndsPattern`. The two agree on all
  subjects if and only if the pattern has neither: `LuaFind.PlainAgreesOnText`.
- A string quoted by `%q` is read back if and only if the line counter does not reach the largest int on its newlines
  (`inclinenumber`, llex.c:129-137, called by `read_string`, llex.c:269-322). Input: one newline when the counter is
  one below the limit, `LuaQuote.NewlineAtLimit`. For every string and counter: `LuaQuote.QuotedIsRead`.
- A dumped function is loaded again if and only if its functions do not nest deeper than the nested C calls that are
  left (`LoadFunction`, lundump.c:161-181, called by `luaU_undump`, lundump.c:195-209); dumping itself has no such
  limit. Input: 201 functions, each inside the one before, with no other call active, `LuaChunkRoundTrip.TooDeep`. For
  every function and number of levels: `LuaChunkRoundTrip.ChunkIs`.

## Model

| member | source | states |
|---|---|---|
| LuaExprCompiler.CompileToNextReg | app/jni/lua/lcode.c:390-419 | For every token sequence and every local layout, at any nesting level: the code emitted in one pass for the expression that the priority table makes of the first tokens, run from its first instruction in any frame whose registers above the locals are nil, as they are when a function begins, ends behind its last one with the value of that expression (`Eval`, whose operators are those of `LuaOperatorLaws`) in the register after the locals and every local as it was, or fails exactly when the expression does; the tokens left over are those the grammar leaves. Tokens that are an expression within the nesting limit always compile, if the locals and one register for each token, or for each level, are below MAXSTACK and fifty times the number of tokens is below MAXARG_sBx. |
| LuaExprCompiler.CompileToLocal | app/jni/lua/lcode.c:472-479 | The same for an assignment to a local variable, under the same bound on the input: the value arrives in that local, and no other local changes, although the expression may read the local while it is being overwritten. |
| LuaExprCompiler.CompileAndRun | app/jni/lua/lparser.c:828-858 | Any operator tree, printed with the fewest parentheses, parsed and compiled in one pass and executed by the interpreter loop, gives the value of the tree; it can fail only if the printed text is too long for the code format, by a bound on its tokens and levels, or if the parentheses nest deeper than LUAI_MAXCCALLS. |
| LuaExprCompiler.SubExpr | app/jni/lua/lparser.c:828-853 | The recursive descent that drives the generator reads exactly what the priority table prescribes, restores the nesting counter, and its descriptor denotes the tree it has read; it fails only if the specification has no parse or a limit is reached; the instructions and constants grow by at most fifty for each token read, and the registers by one for each token and for each level. |
| LuaExprCompiler.PrefixExp | app/jni/lua/lparser.c:667-687 | What stands in parentheses is read up to its closing parenthesis, and the descriptor denotes its value. |
| LuaExprCompiler.ParenthesesKeepMeaning | app/jni/lua/lparser.c:828-853 | Adding the parentheses that the printer adds does not change the value of an expression. |
| LuaOperatorLaws.NumbersCompare | app/jni/lua/lvm.c:225-253 | Operands that are numbers are compared as numbers by all six comparison operators, whatever expressions they come from. |
| LuaOperatorLaws.LiteralsCompare | app/jni/lua/lvm.c:225-253 | For all reals, each of the six comparisons of two number literals is true exactly if the comparison of the reals is; so exactly one of `<`, `==` and `>` holds, and `<=`, `>=` and `~=` are the negations of `>`, `<` and `==`. |
| LuaOperatorLaws.EqualityIs | app/jni/lua/lvm.c:255-279 | Values of different types are never equal; nil is equal to itself, booleans and numbers are equal if they are the same, strings if their characters are, and objects as their identity and metamethods say; `~=` is the negation. |
| LuaOperatorLaws.OthersCompare | app/jni/lua/lvm.c:225-253 | Operands that are not both numbers are compared by string order and metamethods, in the order in which they are written for `<` and `<=`, and exchanged for `>` and `>=`; no answer is an error. |
| LuaOperatorLaws.LogicIs | app/jni/lua/lobject.h:103-103 | `and`, `or` and `not`: nil and false are false and all other values are true, and the second operand is evaluated only if the first one does not decide. |
| LuaOperatorLaws.ArithmeticIs | app/jni/lua/lvm.c:317-338 | Arithmetic on two numbers is the operation on their values in the order in which they are written; numbers are converted when they are concatenated. |
| LuaOperatorLaws.StringsAreJoined | app/jni/lua/lvm.c:282-314 | The concatenation of two strings is the characters of the first and then those of the second. |
| LuaOperatorLaws.ErrorsSpread | app/jni/lua/lvm.c:317-338 | A run-time error in an operand that is evaluated is an error of the expression. |
| LuaCode.FuncState.FixJump | app/jni/lua/lcode.c:80-87 | Sets the offset of one jump and nothing else, and fails exactly if the destination is out of reach. |
| LuaCode.FuncState.NeedValue | app/jni/lua/lcode.c:122-128 | True exactly if some jump of the list does not carry a value. |
| LuaCode.FuncState.RemoveValues | app/jni/lua/lcode.c:144-147 | Exactly the value-carrying jumps of the list lose their value; the list stays as it is. |
| LuaCode.FuncState.PatchListAux | app/jni/lua/lcode.c:150-160 | Exactly the jumps of the list are redirected, those that carry a value to one target with their TESTSET set to the register, the others to the other target; no other instruction changes; it fails exactly if a target is out of reach of some jump. |
| LuaCode.FuncState.Concat | app/jni/lua/lcode.c:185-196 | The result list is the append of two disjoint lists, and only jumps of the first list change. |
| LuaCode.FuncState.Jump | app/jni/lua/lcode.c:59-66 | Emits one jump that takes over the list waiting for the current position. |
| LuaCode.FuncState.PatchToHere | app/jni/lua/lcode.c:179-182 | The list joins those that wait for the next instruction; only waiting jumps change. |
| LuaCode.FuncState.DischargeJpc | app/jni/lua/lcode.c:163-166 | Sends exactly the waiting jumps to the current position. |
| LuaCodeEdits.DischargeKeepsRuns | app/jni/lua/lcode.c:163-166 | Sending every waiting jump to the current position leaves the outcome of every run as it was. |
| LuaCode.FuncState.AddK | app/jni/lua/lcode.c:229-247 | A constant gets one slot: an old one if the value is known, or else a new one at the end; no other slot changes; it fails only beyond MAXARG_Bx constants. |
| LuaCode.FuncState.DischargeVars | app/jni/lua/lcode.c:304-334 | The descriptor still denotes the expression after a variable has been read, and the jump lists are untouched. |
| LuaCode.FuncState.NilTo | app/jni/lua/lcode.c:35-56 | Loads nil into the register in all three ways: nothing at the start of a function, merged into the LOADNIL before, or a new instruction; the denotation is kept. |
| LuaCode.FuncState.Discharge2Reg | app/jni/lua/lcode.c:343-379 | After the value has been loaded the descriptor denotes the expression in the given register, with its jump lists as they were. |
| LuaCode.FuncState.Exp2Reg | app/jni/lua/lcode.c:390-411 | With both jump lists closed, the expression has its value in the given register on every run, whether it came by falling through, by a TESTSET or by one of the two LOADBOOLs. |
| LuaCode.FuncState.Exp2RK | app/jni/lua/lcode.c:444-469 | The operand is a register or a constant of the descriptor, and an operand that is settled already emits nothing. |
| LuaCode.FuncState.JumpOnCond | app/jni/lua/lcode.c:524-536 | Emits a test whose jump is taken exactly if the value is false (or true); a NOT just emitted is removed and the test inverted, with the same runs. |
| LuaCode.FuncState.GoIfTrue | app/jni/lua/lcode.c:539-560 | Control goes on exactly in the runs where the expression is true; all others leave through the false list. |
| LuaCode.FuncState.GoIfFalse | app/jni/lua/lcode.c:563-583 | Control goes on exactly in the runs where the expression is false; all others leave through the true list. |
| LuaCode.FuncState.CodeNot | app/jni/lua/lcode.c:586-618 | The descriptor denotes the negation, with the lists exchanged and without values. |
| LuaCode.FuncState.CodeArith | app/jni/lua/lcode.c:627-670 | Folded or emitted, the descriptor denotes the operation on the two operands, in the order of the operands, with their temporaries freed. |
| LuaCode.FuncState.CodeUnary | app/jni/lua/lcode.c:653-670 | The same for the minus sign and the length operator, where the second operand is absent. |
| LuaCode.FuncState.CodeConcat | app/jni/lua/lcode.c:753-766 | The descriptor denotes the concatenation: if the second operand is itself a concatenation, its instruction takes in one more register, and otherwise a new one is emitted. |
| LuaOperators.MergedCompiled | app/jni/lua/lcode.c:753-760 | Extending the registers of a pending concatenation downwards by the first operand computes the concatenation of both operands, in every run. |
| LuaConcat.VConcat | app/jni/lua/lvm.c:282-316 | Joining runs of strings in one go, with metamethods for other values and an error when a string gets too long, gives what concatenating two values at a time from right to left gives, in the first register, or fails with the same error exactly when that fails; other registers do not change. |
| LuaConcat.LimitedIs | app/jni/lua/lvm.c:298-304 | The limit on the length of strings changes no result and no other error, and is passed only if some string made on the way from right to left is too long. |
| LuaConcat.TextsAreJoined | app/jni/lua/lvm.c:292-311 | Two or more strings joined at once are the same as one after the other. |
| LuaCode.FuncState.CodeComp | app/jni/lua/lcode.c:673-686 | Of the six comparisons, also those that are emitted with exchanged operands or an inverted condition, the descriptor denotes the comparison. |
| LuaCode.FuncState.Prefix | app/jni/lua/lcode.c:689-707 | The descriptor of the operand becomes one of the unary expression. |
| LuaCode.FuncState.Infix | app/jni/lua/lcode.c:710-734 | Before the second operand is read, the first one is where the second cannot overwrite it, or has decided whether the second is evaluated. |
| LuaCode.FuncState.Posfix | app/jni/lua/lcode.c:737-781 | From the descriptors of both operands comes one of the binary expression, short-circuit operators included. |
| LuaCode.ComparisonDecides | app/jni/lua/lcode.c:673-686 | The instruction chosen for a comparison decides it: equality and its negation, and the order relations with operands exchanged where needed. |
| LuaToRegister.ResolvedCompiled | app/jni/lua/lcode.c:390-411 | Patching one of the two lists of a value in a register makes all its runs end with the right value in the register, and leaves the other list alone. |
| LuaToRegister.NilMergedCompiled | app/jni/lua/lcode.c:44-52 | Extending the LOADNIL before by one register is right for every run that reaches it. |
| LuaToRegister.CleanRegisterCompiled | app/jni/lua/lcode.c:38-42 | At the start of a function nothing needs to be emitted for nil. |
| LuaDenotation.JumpJoinsTrueList | app/jni/lua/lcode.c:390-394 | The jump of a comparison may join the true list: falling through then means false. |
| LuaPrecedence.SubExprIs | app/jni/lua/lparser.c:828-853 | The parser returns a tree and a rest exactly if the tree, written out, with that rest is the input, groups as the priority table demands, nests within the limit, and the operator that comes next is not above the limit. |
| LuaPrecedence.ParsesWhatIsPrinted | app/jni/lua/lparser.c:828-853 | A tree whose grouping needs no more parentheses, written out before any rest, is parsed back and the loop goes on with the rest. |
| LuaPrecedence.RoundTrip | app/jni/lua/lparser.c:815-853 | Every tree, printed with parentheses only where the table requires them, is parsed back to itself (up to the parentheses), or fails exactly if they nest too deep. |
| LuaPrecedence.Fewest | app/jni/lua/lparser.c:815-853 | No other way of adding parentheses that keeps the tree uses fewer. |
| LuaPrecedence.ReadsWhatItParses | app/jni/lua/lparser.c:778-853 | What the parser accepts is exactly the text of the tree it returns, with the grouping that the table demands. |
| LuaPrecedence.PrioritiesAreLevels | app/jni/lua/lparser.c:815-820 | The table of priorities says what section 2.5.6 of the reference manual says in words: which of two operators binds tighter, that `..` and `^` are right associative, and that only `^` binds tighter than the unary operators. |
| LuaPrecedence.GroupedByLevels | app/jni/lua/lparser.c:815-853 | For every sequence of tokens: the tree that is parsed is the one that is written with these tokens and in which each operand belongs to the operator to which the levels of the manual give it, parentheses aside, as long as it does not nest too deep. |
| LuaPrecedence.TwoOperators | app/jni/lua/lparser.c:815-853 | For all operands and all pairs of operators, `a op1 b op2 c` is grouped to the left exactly if the level of the first operator in the manual is higher, or they are of one level that is not that of `..` or `^`. |
| LuaPrecedence.UnaryOperator | app/jni/lua/lparser.c:823-853 | A unary operator is applied before every binary operator but `^`: `op a ^ b` is `op (a ^ b)`, and all others are `(op a) op2 b`. |
| LuaPrecedence.UnaryOperand | app/jni/lua/lparser.c:823-853 | A unary operator in front of the second operand takes that operand, with the power it may be raised to, and the two binary operators around it are grouped by their levels. |
| LuaTable.Table.Set | app/jni/lua/ltable.c:494-505 | The table is a map: after the call the key has the value and every other key what it had, through relocation of nodes, growth and shrinking of the array part and rehash; nil and NaN are rejected, and otherwise it fails only by "table overflow" with at least 2^26 keys in use, leaving the contents alone; overwriting an existing field never moves a field.; the number of keys with a value changes by exactly what the assignment adds or takes away |
| LuaTableContents.OneKeyMoreOrLess | app/jni/lua/ltable.c:494-505 | Two tables that differ at one key only have numbers of keys with a value that differ exactly as the values at that key do, however the keys are spread over arrays and nodes. |
| LuaTable.Table.Get | app/jni/lua/ltable.c:435-491 | Finds the slot of the key, if it has one, and the value that the map has for it. |
| LuaTable.Table.HSet | app/jni/lua/ltable.c:494-505 | Finds or makes the slot of a key without changing what the table contains; with a free node or a place in the array it never rehashes. |
| LuaTable.Table.NewKey | app/jni/lua/ltable.c:399-429 | Inserts the key by reuse, by moving the colliding node, or into the chain, with every chain and the contents intact; if there is no room it rehashes once, and the second attempt needs no rehash. |
| LuaTable.Table.Previous | app/jni/lua/ltable.c:409-414 | The search for the predecessor of a colliding node ends, and finds the only node that links to it. |
| LuaTable.Table.GetFreePos | app/jni/lua/ltable.c:382-388 | Finds a free node exactly if there is one, and all nodes from it on keep their keys. |
| LuaTable.Table.SetNodeVector | app/jni/lua/ltable.c:272-294 | A hash part of at least the size asked for, all of it free; fails exactly beyond 2^26 nodes, without a change. |
| LuaTable.Table.Resize | app/jni/lua/ltable.c:297-324 | The contents stay the same for every new size of the two parts that leaves room for what they hold; no insertion runs out of nodes. |
| LuaTable.Table.ReinsertSlice | app/jni/lua/ltable.c:306-315 | The vanishing part of the array is found in the hash part afterwards, with no more nodes used than values moved. |
| LuaTable.Table.ReinsertNodes | app/jni/lua/ltable.c:317-322 | All entries of the old nodes are there again, in the array part or in the hash part. |
| LuaTable.Table.Rehash | app/jni/lua/ltable.c:333-349 | The contents stay the same, there is room for the new key afterwards, and the new array size is the largest power of two such that more than half of the integers up to it are keys of the map that the table represents, or are the new key, or it is zero if there is none. |
| LuaTable.Table.NumUseArray | app/jni/lua/ltable.c:222-244 | Counts the used slots of each slice between powers of two, and of the whole array. |
| LuaTable.Table.NumUseHash | app/jni/lua/ltable.c:247-260 | Adds the integer keys of the hash part to the slices they belong to, and counts all keys. |
| LuaTable.CountInt | app/jni/lua/ltable.c:211-219 | Counts a key in exactly the slice it belongs to, and only if it is an array index. |
| LuaTableCounts.ComputeSizes | app/jni/lua/ltable.c:189-208 | Chooses the largest power of two of whose slots more than half would be used, and how many keys that is. |
| LuaTable.ChosenIsBest | app/jni/lua/ltable.c:189-208 | The size chosen from the counts is the best one for the keys themselves. |
| LuaTableContents.CountKeysIs | app/jni/lua/ltable.c:222-262 | What is counted in the two parts and the new key is the number of integers up to the bound that are keys of the map, or are the new key. |
| LuaTable.BestIsLargest | app/jni/lua/ltable.c:189-208 | The size that is best by the counts is the largest power of two such that more than half of the integers up to it are keys, whatever the parts of the table are afterwards. |
| LuaTable.HalfUsedIsWorthWhile | app/jni/lua/ltable.c:189-208 | The test on the counts says that more than half of the slots would hold a key. |
| LuaTable.Table.New | app/jni/lua/ltable.c:358-371 | A new table contains nothing, and fails exactly if the hash part is too large. |
| LuaTable.Table.FindIndex | app/jni/lua/ltable.c:137-159 | The position of the key in a traversal, or failure exactly for a key that is not in the table. |
| LuaTable.Table.Next | app/jni/lua/ltable.c:162-179 | The first key with a value behind the given one, with its value, or none; fails exactly for a key that is not in the table. |
| LuaTableContents.NoKeyTwice | app/jni/lua/ltable.c:162-179 | In a traversal during which fields are overwritten or cleared no key comes twice. |
| LuaTableContents.KeyIsVisited | app/jni/lua/ltable.c:162-179 | A key that has a value all the time is visited. |
| LuaTableContents.TraversalEnds | app/jni/lua/ltable.c:162-179 | A traversal has no more visits than the table has slots. |
| LuaTraversal.Traverse | app/jni/lua/ltable.c:137-179 | Starting from nil and calling `luaH_next` while an arbitrary program assigns to existing fields between the calls: each table that a call sees is what the program's assignments make of the one before, the first and the last are the table before and after the loop; the keys visited are distinct, each has a value when it is visited, every key that the program does not clear is among them, and the traversal ends. |
| LuaTraversal.AllVisited | app/jni/lua/ltable.c:162-179 | From the record of such a run: distinct keys, complete, and no more of them than slots. |
| LuaTable.Table.Getn | app/jni/lua/ltable.c:560-576 | The length is a boundary: zero with nothing at 1, or an index with a value whose successor has none. |
| LuaTable.Table.UnboundSearch | app/jni/lua/ltable.c:532-553 | From a used index the search ends with a boundary, also when doubling has passed the largest int. |
| LuaTable.Table.LinearSearch | app/jni/lua/ltable.c:541-545 | The fallback ends within as many steps as there are slots, with a boundary. |
| LuaTableChains.ReusedIsChained | app/jni/lua/ltable.c:399-429 | Taking over a node whose value is nil keeps every chain, although the chain may hold keys of different main positions. |
| LuaTableChains.AddedIsChained | app/jni/lua/ltable.c:420-426 | Linking a free node behind the main position keeps every chain. |
| LuaCollector.GlobalState.SingleStep | app/jni/lua/lgc.c:556-607 | In every state and for every heap: whatever the roots reach by strong references stays alive; in the mark phase nothing is freed or changed; the atomic phase condemns exactly the dead; a step of the sweep frees nothing alive and leaves every open upvalue open on its slot while its thread is there; no finalizer is lost: it stays due until it is called; when the sweep is over everything condemned and not resurrected has been freed; and every step comes nearer to the end of the collection. |
| LuaCollector.GlobalState.Step | app/jni/lua/lgc.c:610-632 | A slice of collection work, of any number of single steps: what the roots reach by strong references stays alive, the roots stay what they are, and no finalizer is lost. |
| LuaCollector.GlobalState.FullGC | app/jni/lua/lgc.c:635-658 | Everything that the roots, or the userdata whose finalizers were still to be called, reached by strong references is still there with its meaning, and its upvalues are open on the slots on which they were open. Weak tables lose an entry only if its key is not reached so, or its value is not or is a userdata that is being finalized; strings are never lost; and no weak table that is left has a finalized userdata as a weak value. Everything left is fixed, or is reached so, or is a string in a table that is; and each userdata whose finalizer was still to be called is there, and either it has been called or is still to be called. |
| LuaCollector.GlobalState.Atomic | app/jni/lua/lgc.c:525-553 | After the flip, exactly the objects of the old white that are not fixed are condemned; what the roots and the userdata with a pending finalizer reach by strong references is alive; what is alive may be kept; weak tables have lost only entries whose key or value is dead, or whose value is a userdata to be finalized, and those that are alive and were not traversed before they became weak hold no such userdata as a value any more; and of the userdata whose finalizers were to be called none is condemned, and each that has lost its turn is queued. |
| LuaCollector.GlobalState.HeldIsAlive | app/jni/lua/lgc.h:86-97 | In every state that the collector and the program can reach together, what the program can get at, by any reference, is not dead. |
| LuaCollector.GlobalState.WhatIsReadIsHeld | app/jni/lua/lgc.h:86-97 | Whatever the program reads from an object that it can get at, any field of any kind of object, through a weak reference or an open upvalue as well, is something that it can get at, and so is in the heap and not dead. |
| LuaCollector.GlobalState.RootsAreHeld | app/jni/lua/lgc.c:501-512 | The program can get at the main thread, the running one, the registry and the metatables of basic types. |
| LuaHeap.StrongReferencesAre | app/jni/lua/lgc.c:158-268 | The references that keep an object from being collected, for each kind of object: a table keeps its metatable, its keys unless its metatable makes them weak and its values unless it makes them weak, and all other objects keep everything that they refer to. |
| LuaHeapStates.ReachableIsAlive | app/jni/lua/lgc.h:86-97 | If live objects refer to live objects only, everything reachable from the roots is alive. |
| LuaHeapSweep.StronglyReachableIsAlive | app/jni/lua/lgc.c:501-553 | In every good state everything that the roots reach by strong references is alive. |
| LuaHeapSweep.FlippedIsGood | app/jni/lua/lgc.c:525-553 | When all marking is done, clearing the weak tables and changing the current white gives a good state, in which what was marked is alive. |
| LuaHeapSweep.KeptIsAlive | app/jni/lua/lgc.c:525-553 | What the roots reach by strong references is alive after the atomic phase, and so is what a userdata with a pending finalizer reaches, for it has been marked too. |
| LuaHeapSweep.AllArePurified | app/jni/lua/lgc.c:337-375 | After the atomic phase every weak table that is alive, and was not black before it became weak, holds no userdata that is being finalized as a value. |
| LuaHeapSweep.SweptIsWhite | app/jni/lua/lgc.c:407-428 | When the sweep has come to the end, every object has the current white, so that the next collection may begin. |
| LuaHeapCollections.CycleGoesOn | app/jni/lua/lgc.c:556-607 | Each step of a collection keeps what will be left: the record of what it keeps and what it frees carries over from step to step. |
| LuaHeapCollections.CycleEnds | app/jni/lua/lgc.c:556-607 | At the end of a collection what was strongly reachable has its meaning, no weak table holds a finalized userdata, and everything left was there before and is fixed or may be kept. |
| LuaHeapCollections.KeptIsClosed | app/jni/lua/lgc.c:525-553 | What a collection may keep is closed under the references that keep an object alive. |
| LuaHeapCollections.KeptIsReached | app/jni/lua/lgc.c:635-658 | When a collection begins with the end of the sweep before it, what may be kept is still reached from the roots and the userdata with pending finalizers. |
| LuaCollector.GlobalState.ReallyMark | app/jni/lua/lgc.c:69-112 | A white object becomes gray or black with the invariant of the mark phase kept, and the number of white objects decreases. |
| LuaCollector.GlobalState.PropagateMark | app/jni/lua/lgc.c:277-320 | One gray object is traversed: no black object refers to a white one, threads, weak tables and open upvalues are not left black, each gray object is on exactly one list, and the measure of the work left decreases. |
| LuaCollector.GlobalState.PropagateAll | app/jni/lua/lgc.c:323-327 | Marking ends, with an empty gray list and the invariant kept. |
| LuaCollector.GlobalState.TraverseTable | app/jni/lua/lgc.c:158-196 | What a table refers to strongly is marked, and it is linked to the weak list, and stays gray, exactly if its metatable says that it is weak. |
| LuaCollector.GlobalState.TraverseStack | app/jni/lua/lgc.c:256-270 | Everything that a thread refers to is marked. |
| LuaCollector.GlobalState.RemarkUpvals | app/jni/lua/lgc.c:515-522 | The values of all open upvalues that are gray are marked, of dead threads too. |
| LuaCollector.GlobalState.SeparateUdata | app/jni/lua/lgc.c:128-155 | Exactly the white userdata with a finalizer that has not been called move, in their order, to the end of the queue; the others stay in their order; every white userdata counts as finalized afterwards. |
| LuaHeapSweep.ChosenOrPassed | app/jni/lua/lgc.c:128-155 | A userdata is queued exactly if it is in the list, white, not finalized and has a finalizer, and left exactly if it is in the list and is not queued. |
| LuaHeapSweep.QueuedAre | app/jni/lua/lgc.c:128-155 | The same without naming the test for a finalizer: the userdata is white, in the list and not finalized, and its metatable is a table with a `__gc` field. |
| LuaHeapSweep.DueIsAlive | app/jni/lua/lgc.c:128-155 | In every state that the collector and the program can reach, a userdata whose finalizer is still to be called is not dead, and is not among those that the sweep will free. |
| LuaHeapSweep.FinalsCalled | app/jni/lua/lgc.c:635-658 | When a collection has come to its end, a userdata whose finalizer was to be called at its beginning is there, and it has been handed to its finalizer unless that is still to be called. |
| LuaCollector.GlobalState.MarkTmu | app/jni/lua/lgc.c:115-124 | Every queued userdata, and what it refers to, is marked. |
| LuaCollector.GlobalState.IsCleared | app/jni/lua/lgc.c:337-345 | True exactly for a white object that is no string, or a finalized userdata that is a value; strings are marked instead. |
| LuaCollector.GlobalState.ClearTable | app/jni/lua/lgc.c:351-375 | Exactly the entries with a cleared key or value are removed; what is left in the table is marked, and no value of it is a finalized userdata. |
| LuaHeap.ClearedHoldsNoFinalized | app/jni/lua/lgc.c:351-375 | A table that has been cleared has no finalized userdata as a value of its hash part, nor in its array if its values are weak. |
| LuaCollector.GlobalState.BarrierF | app/jni/lua/lgc.c:661-671 | After a store into a black object that is no table the invariant holds again, by marking forward or by whitening the object in the sweep; nothing alive dies. |
| LuaCollector.GlobalState.BarrierBack | app/jni/lua/lgc.c:674-682 | After a store into a black table the invariant holds again by making the table gray; nothing alive dies. |
| LuaCollector.GlobalState.SetEntry | app/jni/lua/lvm.c:134-162 | A store to a field, with its barriers, in any state of the collector. |
| LuaCollector.GlobalState.ResizeTable | app/jni/lua/ltable.c:297-324 | The entries of a table move to parts of other sizes while a collection is going on, without a barrier and with the invariant kept. |
| LuaCollector.GlobalState.SetUpvalue | app/jni/lua/lvm.c:451-456 | A store to an upvalue, open or closed, with its barrier. |
| LuaCollector.GlobalState.SetMetatable | app/jni/lua/lapi.c:697-731 | A change of the metatable of a table or userdata, with the barrier of each. |
| LuaCollector.GlobalState.SetEnv | app/jni/lua/lapi.c:734-760 | A change of the environment of a function, a userdata or a thread, with the barrier of each. |
| LuaCollector.GlobalState.NewObject | app/jni/lua/lgc.c:685-691 | A new object is linked and white, in any state, and on the stack. |
| LuaCollector.GlobalState.NewString | app/jni/lua/lstring.c:50-72 | A new string enters its bucket white, also when the sweep has passed the bucket. |
| LuaCollector.GlobalState.ResizeStrings | app/jni/lua/lstring.c:22-47 | The strings move to a table with another number of buckets while a collection is going on, unless the sweep is among them, with the invariant kept. |
| LuaCollector.GlobalState.FindString | app/jni/lua/lstring.c:75-93 | A string that is found again is resurrected if it is dead. |
| LuaCollector.GlobalState.FindUpval | app/jni/lua/lfunc.c:53-79 | There is one upvalue for each slot of a stack: the open one is found, and resurrected if it is dead, or a new one is linked in its place in the list, which stays strictly decreasing. |
| LuaCollector.GlobalState.Close | app/jni/lua/lfunc.c:96-112 | Exactly the upvalues at or above the level are no longer open: what is left of the list is its part below the level; each of the others has the value of its slot in itself, or was dead and is freed; every other object is what it was. |
| LuaHeapSweep.ClosedWithItsSlot | app/jni/lua/lfunc.c:96-112 | Each upvalue that has been closed, and was not dead, has the value that was in its stack slot. |
| LuaHeapSweep.ClosedOneMore | app/jni/lua/lfunc.c:96-112 | Closing one more upvalue of the list leaves exactly one more closed, for any number of rounds. |
| LuaHeapSweep.SurviveFreeingThread | app/jni/lua/lstate.c:134-140 | A dead thread that closes all its upvalues before it is freed takes nothing from what is alive: the live upvalues keep their values. |
| LuaCollector.GlobalState.CloseUpvalue | app/jni/lua/lfunc.c:100-110 | Closing one upvalue moves the value of its slot into it and changes nothing else but its list, with the barrier that `luaC_linkupval` needs and every invariant kept. |
| LuaCollector.GlobalState.CloseGray | app/jni/lua/lgc.c:694-709 | A closed upvalue that is gray becomes black and its value is marked in the mark phase, and is whitened in the sweep. |
| LuaCollector.GlobalState.MarkRoot | app/jni/lua/lgc.c:501-512 | A collection begins: the roots are marked and nothing is freed. |
| LuaCollector.GlobalState.SweepString | app/jni/lua/lgc.c:412-426 | One string of a bucket is swept: it is still there exactly if it was not condemned, and white then. |
| LuaCollector.GlobalState.SweepObject | app/jni/lua/lgc.c:407-428 | One object is swept, with the open upvalues of a thread: it is still there exactly if it was not condemned; nothing alive is freed or changed, and no upvalue of a thread that is left is closed. |
| LuaCollector.GlobalState.SweepList | app/jni/lua/lgc.c:407-428 | A number of objects is freed or made white; nothing alive is freed or changed, and no upvalue of a thread that is left is closed. |
| LuaCollector.GlobalState.FreeObject | app/jni/lua/lgc.c:378-400 | A dead object is gone; a thread closes its upvalues first; nothing alive is freed or changed. |
| LuaCollector.GlobalState.GCTM | app/jni/lua/lgc.c:445-471 | The first queued userdata leaves the queue, which keeps every invariant, and is pushed for its finalizer if it has one; nothing alive dies. |
| LuaMatch.MatchState.Match | app/jni/lua/lstrlib.c:365-440 | The recursive matcher with its array of captures gives what backtracking over the pattern gives: the end of the match with its captures, or no match with all captures as they were, or the error. |
| LuaPatternSearch.SearchIsFirst | app/jni/lua/lstrlib.c:365-440 | The result is that of the first way through the pattern, in the order of preference, that does not die: longest first for `*` and `+`, shortest first for `-`, taken first for `?`; and there is none only if no way leads to a match. |
| LuaPatternSearch.RepetitionIs | app/jni/lua/lstrlib.c:301-326 | A repetition goes on after the greatest number of characters at which the rest of the pattern does not fail, for `-` after the least, and at least one for `+` and at most one for `?`; it fails only if the rest fails at all of them. |
| LuaPatternMeaning.MatcherFindsMeaning | app/jni/lua/lstrlib.c:365-440 | For every pattern given by its structure (classes, sets, the four repetitions, captures, back references, balanced strings, frontiers and the anchor at the end) with the meaning that section 5.4.1 of the reference manual describes: written out as characters, it makes the matcher find exactly that, with the same captures and errors, at every position of every subject. |
| LuaPatternMeaning.ClassIsRead | app/jni/lua/lstrlib.c:202-275 | A class that is written in a pattern ends where it should and contains exactly the bytes that the manual says: the ten kinds in the C locale and their complements, sets with ranges and kinds, and complements of sets. |
| LuaPatterns.BalanceIs | app/jni/lua/lstrlib.c:281-298 | `%b` matches exactly up to the first position where as many closing characters as opening ones have been seen. |
| LuaPatterns.RunLengthIs | app/jni/lua/lstrlib.c:301-313 | The number of repetitions of a single item: so many characters in a row match, and no more. |
| LuaFind.MemFind | app/jni/lua/lstrlib.c:444-463 | Finds the first occurrence, and none exactly if there is none. |
| LuaFind.FindPattern | app/jni/lua/lstrlib.c:512-531 | The match at the leftmost position where there is one, or at the anchored position only. |
| LuaFind.StrFind | app/jni/lua/lstrlib.c:495-535 | The plain search where it is asked for or the pattern has no special character, and the leftmost match otherwise; for a pattern that is text they are the same. |
| LuaFind.StartAt | app/jni/lua/lstrlib.c:499-501 | A position counts from the beginning if it is positive and from the end if it is negative; zero and positions before the beginning are the beginning, and positions after the end are the end. |
| LuaFind.SpecialsAre | app/jni/lua/lstrlib.c:183-183 | The characters for which the plain search is not taken, by value. |
| LuaFind.PlainAgreesOnText | app/jni/lua/lstrlib.c:502-514 | For a pattern without special characters, the plain search agrees with the matcher on all subjects exactly if the pattern has no zero byte and no closing parenthesis. |
| LuaFind.PlainFindsWhatMatcherRejects | app/jni/lua/lstrlib.c:502-514 | For the pattern `)` the plain search succeeds on a subject for which the matcher raises an error. |
| LuaFind.ZeroEndsPattern | app/jni/lua/lstrlib.c:502-514 | For a pattern with a zero byte the matcher finds what the plain search does not. |
| LuaQuote.QuotedIsRead | app/jni/lua/llex.c:269-322 | Every byte string, quoted, is read back as itself, whatever follows it, with the line count advanced by its newlines; it fails exactly if that count passes the largest int. |
| LuaQuote.NewlineAtLimit | app/jni/lua/llex.c:129-137 | One newline, quoted, is not read back when the line counter is one below its limit, and is read back when it is two below. |
| LuaQuote.EscapesAre | app/jni/lua/lstrlib.c:696-723 | What is written for each byte, by value: an escape for the quote, the backslash, the newline, the carriage return and the zero byte, and the byte itself for all others. |
| LuaQuote.LetterEscapes | app/jni/lua/llex.c:284-290 | The seven letters after a backslash stand for bell, backspace, form feed, newline, carriage return, tab and vertical tab, by value. |
| LuaQuote.DecimalEscapes | app/jni/lua/llex.c:297-309 | One to three digits after a backslash stand for the byte that they are in decimal, a fourth digit is not read, and a value above 255 is an error. |
| LuaQuote.NewlineEscapes | app/jni/lua/llex.c:291-292 | A backslash and a newline, in one character or two different ones, stand for one newline and count as one line. |
| LuaQuote.OtherEscapes | app/jni/lua/llex.c:294-296 | After a backslash every other character stands for itself. |
| LuaZio.Zio.Fill | app/jni/lua/lzio.c:21-32 | The next chunk of the stream, with its first byte returned; the content is the rest. |
| LuaZio.Zio.Lookahead | app/jni/lua/lzio.c:35-45 | The next byte, with the content of the stream as it was. |
| LuaZio.Zio.Read | app/jni/lua/lzio.c:58-71 | As many bytes as there are, in order, whatever the chunks, and how many are missing. |
| LuaChunkRoundTrip.ChunkIs | app/jni/lua/lundump.c:195-209 | Loading what has been dumped reads exactly the chunk and gives the same function tree, or with stripping one that differs only in sources and debug information; it fails exactly if the functions nest deeper than the levels left. |
| LuaChunkRoundTrip.TooDeep | app/jni/lua/lundump.c:161-181 | A function with 200 others inside, each in the one before, is dumped but not loaded again, and one with 199 is. |
| LuaChunkRoundTrip.TruncatedFails | app/jni/lua/lundump.c:48-52 | A dump that has been cut off is never taken for a function. |
| LuaChunkRoundTrip.FunctionIs | app/jni/lua/ldump.c:129-141 | The same for every function of the tree, inside any stream, with the source left out where it is that of the enclosing function. |
| LuaChunk.EncodeDecode | app/jni/lua/ldump.c:45-48 | An integer comes back from its bytes in either order of bytes. |
| LuaChunkFormat.EncodedByte | app/jni/lua/ldump.c:45-48 | Byte i of an integer, counted from the least significant one, is its digit with the weight 256^i; it is written at place i on a little-endian machine, and at that place from the end on the other. |
| LuaChunkFormat.DecodedIs | app/jni/lua/lundump.c:61-67 | An integer of four or eight bytes that is loaded is the sum of its bytes times their weights, in the order of the machine. |
| LuaChunkFormat.HeaderIs | app/jni/lua/lundump.c:214-227 | The twelve bytes of the header by value; the seventh is the first byte of the integer 1 as the same machine dumps it. |
| LuaChunkFormat.ConstantIsAt | app/jni/lua/ldump.c:80-105 | The bytes of a constant: the tag 0, 1, 3 or 4 for nil, a boolean, a number or a string, and its value. |
| LuaChunkFormat.FunctionIsAt | app/jni/lua/ldump.c:129-141 | Wherever a function stands in a dump, each of its fields is at its offset, with the bytes that its value has: the source, the two lines, the four small counts, the code, the constants, the functions inside it, and the debug information. |
| LuaChunkFormat.ChunkHasTheFormat | app/jni/lua/ldump.c:153-164 | A dumped chunk is the header and the function after it, byte by byte, and nothing else. |
| LuaDump.UDump | app/jni/lua/ldump.c:153-164 | The writer is offered the chunk in blocks until it answers something other than zero, and that answer is the status; with a status of zero it has got exactly the chunk, whose bytes are those of `LuaChunkFormat`, and a writer that never fails gives zero. |
| LuaRoundTrips.QuoteThenRead | app/jni/lua/llex.c:269-322 | Quoting a string, handing the bytes to the lexer in any division into chunks and reading the literal gives the string back and leaves exactly what followed it, with the line count advanced by its newlines; it fails exactly if that count passes the largest int. |
| LuaRoundTrips.DumpThenLoad | app/jni/lua/lundump.c:195-209 | Dumping a function through a writer that never fails and loading the bytes, in any division into chunks and at any nesting level, gives the function (stripped, if asked) and leaves exactly what followed, or fails exactly if the functions nest deeper than the levels left; if the writer fails, its answer is the status. |
| LuaUndump.UUndump | app/jni/lua/lundump.c:195-209 | The function and the rest of the stream, or the error, depend on the bytes alone, not on how the reader divides them, at every nesting level. |
| LuaSort.Sort | app/jni/lua/ltablib.c:193-254 | For every strict weak order the array is sorted and a permutation of what it was; no index leaves 1..n. |
| LuaSort.AuxSort | app/jni/lua/ltablib.c:193-254 | Sorts the given part and nothing else, with at most as many nested calls as the logarithm of its size, because only the smaller half recurses. |
| LuaSort.Partition | app/jni/lua/ltablib.c:214-244 | The pivot arrives at its place, with nothing greater before it and nothing less behind it; the two scans never leave the range, so that "invalid order function" is not raised. |
| LuaReferences.References.Ref | app/jni/lua/lauxlib.c:481-501 | The reference is not one that is held, leads to the value, and all held references keep their values, after any run of ref and unref; the reference for nil is negative and none that is held; it fails only by "table overflow" with 2^26 keys in use, and then all held references are as they were. |
| LuaReferences.References.Unref | app/jni/lua/lauxlib.c:504-512 | The reference is no longer held and is the next to be given out, and all others keep their values; it fails only by "table overflow" with 2^26 keys in use, and then it is not held either, and is given out again only if the length of the table leads to it. |
| LuaReferences.References.UniqueBorder | app/jni/lua/lauxlib.c:493-497 | With no free reference the table has one boundary only, the number of references, unless references have been lost by an overflow: then it may be in front of one of them. |
| LuaStrings.StringTable.NewLStr | app/jni/lua/lstring.c:75-93 | There is one object for each content: the one that is there, no longer dead, or a new one; nothing else changes. |
| LuaStrings.StringTable.NewString | app/jni/lua/lstring.c:50-72 | The new string is in the bucket that its hash selects, and the count is exact, also if the table grows. |
| LuaStrings.StringTable.Resize | app/jni/lua/lstring.c:22-47 | The same strings are in the table, each in the bucket that its hash selects among the new ones; the size changes unless a sweep of the strings is going on. |
| LuaStrings.StringTable.SweepBucket | app/jni/lua/lgc.c:407-428 | Exactly the dead strings of the bucket leave the table. |
| LuaStrings.SameStringSameReference | app/jni/lua/lstring.c:75-93 | Two strings of the table have the same characters exactly if they are the same object. |
| LuaStack.LuaState.CorrectStack | app/jni/lua/ldo.c:126-138 | Every pointer into the old block, of the thread, its frames and its open upvalues, points to the same offset of the new one. |
| LuaStack.LuaState.ReallocStack | app/jni/lua/ldo.c:141-149 | When the stack moves, the program sees the same: values, top, base, frames and what every open upvalue refers to; no pointer leads into the old block. |
| LuaStack.LuaState.ReallocCI | app/jni/lua/ldo.c:152-158 | When the array of frames moves, the program sees the same frames. |
| LuaStack.LuaState.CheckStack | app/jni/lua/ldo.c:161-166 | There is room for the values asked for, and the program sees the same stack although it may have moved. |
| LuaStack.LuaState.IncCI | app/jni/lua/ldo.c:169-178 | There is a next frame, or one of the two errors exactly if the limit of nested calls is passed. |
| LuaStack.LuaState.Precall | app/jni/lua/ldo.c:265-304 | The frame of a called function begins behind the function, wherever the stack has moved meanwhile, with the arguments it takes and nil in all other registers; older frames and upvalues stay. |
| LuaStack.LuaState.ClearAndShrink | app/jni/lua/lgc.c:256-270 | Above the top everything is nil, and shrinking the stack, exactly if it is too large, and the array of frames changes nothing that the program sees. |
| LuaStack.LuaState.CheckStackSizes | app/jni/lua/lgc.c:241-253 | A block is halved exactly if less than a quarter of it is in use and it is more than twice as large as a new one, unless an overflow of calls is being handled; the program sees the same. |
| LuaStack.LuaState.ReadingIsSeen | app/jni/lua/ldo.c:130-131 | What an open upvalue reads is part of what the program sees, so that it survives every move. |

## Left out

Code generation:
- LuaExprCompiler.CompileToNextReg: one expression at the beginning of a function (the methods of `LuaCode.FuncState` hold after any code); does not cover calls, table constructors, indexing, varargs and function bodies as operands.
- LuaCode.FuncState.DischargeVars: locals, upvalues and globals; indexed variables, calls and varargs as operands are not modelled.
- LuaExprCompiler.CompileToLocal: covers the assignment to a local variable only, not those to upvalues, globals and fields.
- LuaCode.FuncState.NilTo: one register at a time, which is all that expressions need.
- LuaCode.FuncState.CodeArith: arithmetic is that of the semantics given as a parameter, on real numbers; signed zeros and the other special values of IEEE 754, beyond "is not a number", are not modelled, and constant folding is assumed to compute what the interpreter computes.
- The packing of instructions into 32 bits and line information; the limits of the instruction fields are modelled.

Tables:
- LuaTable.Table.Set: "table overflow" is shown to need 2^26 used keys, but not that 2^26 used keys always lead to it.
- The hash functions are a parameter that respects equality of keys; dead keys, the cache of absent metamethods and memory errors are not modelled.

Collector:
- LuaCollector.GlobalState.Step: the amount of work, debts, thresholds and byte counts are a parameter.
- LuaCollector.GlobalState.GCTM: the finalizer is not called, its userdata is pushed on the stack of the running thread; what a finalizer does is a sequence of the program's own steps.
- LuaCollector.GlobalState.SeparateUdata: what `atomic` asks for; the other use, of all userdata when the state is closed, is not modelled.
- LuaCollector.GlobalState.TraverseStack: the clearing of the part of a stack above its top and the shrinking of stacks are modelled apart from the collector, in `LuaStack`.
- LuaCollector.GlobalState.FindUpval: stack positions are numbers here; as pointers into a stack that moves they are modelled in `LuaStack`.
- `__mode` and `__gc` are attributes of a table used as a metatable, not fields; `luaS_fix`, the replacement of the registry and `lua_close` are not modelled, so that the main thread is the only fixed object; the buckets and node positions that a new size gives are modelled in `LuaStrings` and `LuaTable`.
- `lua_setupvalue`, which puts its barrier on the closure.

Patterns:
- The C locale only; the values that captures push, `gsub`, `gmatch` and the depth of the C stack.

Round trips:
- The check of loaded code (`luaG_checkcode`) is a parameter; `int` and instructions have four bytes and numbers eight; the growth of buffers and its limits.

Smaller cores:
- LuaSort.Sort: for order functions that are no strict weak order nothing is shown, and indices do not overflow.
- LuaReferences.References.Unref: for references that are held, or negative; what a second release of the same reference does to the free list is not described.
- LuaStrings.StringTable.NewLStr: the hash of the characters is a parameter; the doubling of the table stops at MAX_INT.
- LuaStack.LuaState.Precall: Lua functions without variable arguments; calls of C functions, variable arguments, returns and hooks are not modelled, nor are sizes beyond the range of int.

The Java and JNI parts, the other libraries, statements, metamethods, coroutines and hooks.
