# ExLang2Bf in Dafny

ExLang2Bf translates small programs into Brainfuck text. The repository holds
three revisions of the translator:

- **old_lang.js** (`convert_old`) reads a line-oriented language: `var`,
  `add`, `out`, `if a = b` … `endif`, `for n` … `endfor`, `dump`.
- **main.js** lexes C-like source with `getToken` and parses it with a
  recursive-descent `SyntaxParser`. It prints the tree, compiles it with
  `Compiler`, and shortens the result with `LenOptimizer`.
- **new.js** reads the text with a cursor-driven `Tokenizer` and a `Parser`
  that keeps one token of lookahead. Its `Compiler` adds `assign`, `div`
  (`Division2`) and string output.

All three translators share the same machine model:

- A map `variables` from names to bindings: one int8 cell, or a list of cells
  for a string.
- A set `memory` of occupied cells.
- The position `currentMemoryPointer` of the Brainfuck head.
- A counter that makes temporary names.
- A stack of open blocks (old_lang.js only).
- The text emitted so far.

The model has these layers:

- **The target language.** `Brainfuck` defines Brainfuck programs, their
  printing and parsing (`ParseShow`), and a tape semantics with byte cells
  and fuel-bounded loops. On this semantics, counted loops, clearing loops and
  walks are proved once.
- **Primitive steps as functions.** `Codegen` writes each primitive step of
  the three compilers as a function on a `Gen` state record. Examples:
  `memoryGetFreeIndex`, `memoryPointerByIndex`, `memoryWriteOptimized`,
  `memoryFree`, `varCreate_Int8`, `varCreate_String`,
  `memoryWriteArrayOptimized` and `varCopyByIndex`.
- **Node handlers as functions.** `Compile` does the same for the node
  handlers of main.js and new.js (`set`, `assign`, `plus`, `div`, `out`).
  `OldLang` does it for the line handlers of old_lang.js.
- **One imperative class for all revisions.** `CompilerImpl.Compiler` has the
  JavaScript fields and one method per JavaScript method, for all three
  revisions. A `rev` field is fixed at construction and selects each
  revision's behaviour. Every method's postcondition ties the new state to the
  specification function of the old state. `CompilerImpl.ConvertOld` is the
  loop of `convert_old` over a fresh object.
- **What the emitted code does.** `CodegenTape`, `CompileTape` and
  `OldLangTape` prove what the emitted code does when it runs on the tape.
  - A variable's creation leaves its value mod 256 in its cell.
  - A copy leaves the source's value in a fresh cell.
  - A free clears a cell.
  - A string's cells hold its character codes.
  - `plus` leaves the byte sum in a fresh cell.
  - `AreEqual` leaves 1 or 0.
  - `add` adds.
  - `if` runs its body once or not at all.
  - `for n` runs its body n mod 256 times.
  - `out` prints the right bytes.
  - All of these hold with every other cell unchanged.
- **The front ends.**
  - `LexerMain` models main.js's `getToken` twice. `GetTokenAsWritten`
    follows the code, including how it misreads a run that ends the text.
    `GetToken` is the corrected lexer (see "## Findings"). The imperative
    `ReadToken` and `GetTokens`, the token list `TokensFrom` and the main.js
    pipeline are built on the corrected one.
  - `ParserMain` models main.js's parser, both as functions (trees) and as
    the `SyntaxParser` class.
  - `TokenizerNew` and `ParserNew` model new.js the same way, as functions
    and as its `Tokenizer` and `Parser` classes.
  - `Ast` holds the `AstNode` class and its value form `Node`.
  - `TreeOut` holds the tree printer.
  - `LenOptimizer` holds the peephole pass.
  - `Pipeline` strings the stages into the two `compile(src)` functions.

Some JavaScript semantics are written out explicitly in `JsValue`:

- `%` takes the sign of the dividend;
- `Number(text)` has its own rules: white space is trimmed, and signs,
  decimal points, exponents, `0x`/`0o`/`0b` prefixes and `Infinity` are read;
- template strings print numbers in decimal;
- `split` and `trim` have their own rules.

Cells are bytes, so every arithmetic fact is stated mod 256.

The model keeps the code's behaviour where it is surprising:

- The main.js `getToken` misreads runs that end the text.
  `LexerMain.GetTokenAsWritten` keeps that behaviour; the rest of the model
  uses the corrected `GetToken` (see "## Findings").
- new.js leaves the last token unread when no token follows it.
- In new.js, `out` of an int8 prints nothing: its condition is an assignment
  that always holds.
- The `if` and `func` nodes of main.js compile to nothing.
- old_lang.js's `deleteVar` releases no cell for an ordinary name.

## Model

| member | source | states |
|---|---|---|
| Ast.Make | main.js:283-293 | the node made from two optional children has exactly the non-null ones, first child first |
| Ast.Size | main.js:277-324 | every tree has at least one node |
| Ast.IndexOf | main.js:318-323 | `indexOf` is -1 exactly when the element is absent, otherwise the first position holding it |
| Ast.AstNode.constructor | main.js:283-293 | type and text are stored, no parent, the children are the non-null arguments in order, each now has this node as parent |
| Ast.AstNode.AddChild | main.js:295-305 | `null` changes nothing; otherwise the child is appended, its parent becomes this node, and a child new to the list sits at its end |
| Ast.AstNode.RemoveChild | main.js:307-312 | the child list is kept; the child forgets this node as parent and nothing else changes |
| Ast.AstNode.GetChild | main.js:314-316 | a child exactly for an index inside the list, namely the child at that index |
| Ast.AstNode.IndexFromParent | main.js:318-323 | -1 without a parent or when absent from the parent's list, otherwise a position in that list holding this node |
| JsValue.JsRem | main.js:782 | JavaScript `value % 256`: congruent to the Euclidean remainder, in [0, b) for a non-negative dividend and in (-b, 0] for a negative one |
| JsValue.NatText | main.js:751 | the decimal text of a counter value is never empty |
| JsValue.NatTextDigits | main.js:751 | a printed counter value is all digits with no leading zero |
| JsValue.NatTextValue | main.js:751 | reading a printed counter value back gives the value |
| JsValue.NatTextInjective | main.js:751 | different counter values print differently, so generated names never collide |
| JsValue.NumberDigits | main.js:863 | `Number` of a digit string is the integer those digits denote |
| JsValue.NumberExponent | main.js:863 | `Number` of digits, `e` and a whole exponent k is the integer those digits denote times 10^k |
| JsValue.NumberRadix | main.js:863 | `Number` of `0x`, `0o` or `0b` followed by digits of that base is their value in that base |
| JsValue.NumberOf | main.js:863 | `Number(null)`, the text of a node without one, is 0 |
| JsValue.Split | old_lang.js:10 | `split` gives at least one piece, and no piece holds the separator |
| JsValue.JoinSplit | old_lang.js:10 | joining the pieces of `split` with the separator restores the text |
| JsValue.TrimStart | old_lang.js:257 | `trim` at the start: a suffix of the text that does not begin with white space, every dropped character white space |
| JsValue.TrimEnd | old_lang.js:257 | `trim` at the end: a prefix of the text that does not end with white space, every dropped character white space |
| Codegen.FirstFreeFrom | old_lang.js:22-30 | the scan from `i` answers a cell in [i, n] with every cell below it occupied; an answer short of `n` is a free cell |
| Codegen.FirstFree | main.js:616-624 | `memoryGetFreeIndex` answers a free cell all of whose predecessors are occupied, at most the number of occupied cells |
| Codegen.MoveToEffect | main.js:638-647 | `memoryPointerByIndex` appends exactly one `>` (rightwards) or `<` (leftwards) per cell of the distance, sets the pointer and touches nothing else |
| Codegen.WriteSmall | main.js:682-709 | below 11 the optimized write is `v` plus signs, none for a value that is not positive |
| Codegen.WriteLarge | main.js:682-709 | from 11 up the write walks to the least free cell, adds v/10 there, loops ten `+` per unit back on the target, adds v mod 10; the scratch cell stays free |
| Codegen.CreateNumber | main.js:777-789 | `varCreate_Int8` succeeds exactly on an integer and otherwise throws its "not a integer" message |
| Codegen.CreateInt8Effect | main.js:777-789 | the new name is bound to the least free cell, which becomes occupied; the pointer is left there; counter and stack unchanged |
| Codegen.CreateZero | main.js:777-789 | creating with 0 emits only the walk to the new cell |
| Codegen.CellOf | main.js:626-637 | the cell of an int8 name; an unbound name throws a TypeError |
| Codegen.FreeEffect | main.js:655-676 | `memoryFree` fails exactly on an unbound name; otherwise binding and cells go, `[-]` is emitted on a zero-filled int8 cell, and the pointer returns only when asked |
| Codegen.FreeClearText | main.js:655-676 | the text of a zero-filling free: walk, `[-]`, and the walk back when the pointer is kept |
| Codegen.DeleteVarKeepsCells | old_lang.js:53-65 | `deleteVar` of a name not starting with a digit drops only the binding: no cell, no text, no move |
| Codegen.CopyLoopsEffect | main.js:750-775 | the two loops of a copy: walk to the source, `src[d+ c+ src-]`, walk to the scratch cell, `c[src+ c-]`; no binding or cell changes |
| Codegen.CopyByIndexEffect | main.js:750-775 | `varCopyByIndex` binds the destination to the least free cell, makes the scratch cell the next free one, releases it, ends on it and advances the counter by one |
| Codegen.CopyByName | main.js:747-749 | `varCopyByName` of an unbound source throws a TypeError |
| Codegen.FreshCells | new.js:1116-1137 | a string of n characters takes n distinct cells, none occupied before |
| Codegen.Codes | new.js:1116-1137 | the k-th code is the k-th character's `charCodeAt` |
| Codegen.MinOf | new.js:1036-1059 | `Math.min(...arr)` is Infinity exactly for no arguments, otherwise an element no larger than any other |
| Codegen.WriteArrayIs | new.js:1036-1059 | the array write: a temporary holding the minimum, the shared spread loop, the per-cell excess writes, then a zero-filling free (new.js) or `deleteVar` (old_lang.js) |
| Codegen.CreateStringFails | new.js:1116-1137 | a string is created exactly when it is not empty; the empty string throws the temporary's "not a integer" message for Infinity |
| Codegen.WriteEachKeeps | new.js:1054-1057 | the per-cell writes leave bindings, cells, counter and stack alone and end on the last cell |
| CodegenTape.DrainLoop | main.js:912-918 | `from[- to± from]` empties `from` into `to`, `to` gaining the signed unit per unit, no other cell changing |
| CodegenTape.WriteTape | main.js:682-709 | run, the optimized write adds v mod 256 to the current cell (nothing for v <= 0) and leaves every other cell as it was |
| CodegenTape.TensRun | main.js:692-704 | the ×10 loop on a scratch cell holding q adds 10·q mod 256 to the target |
| CodegenTape.CreateInt8Tape | main.js:777-789 | run, `varCreate_Int8` leaves the new cell holding the JavaScript `value % 256` taken as a byte (0 for a negative value), the pointer on it, other cells unchanged |
| CodegenTape.CopyOutLoop | main.js:756-764 | `src[d+ c+ src-]` moves the source's value into both `d` and `c` and empties the source |
| CodegenTape.CopyBackLoop | main.js:766-772 | `c[src+ c-]` moves `c` back into the source |
| CodegenTape.CopyLoopsTape | main.js:756-772 | both loops: the source restored, `d` holding its value, `c` back at 0 |
| CodegenTape.CopyByIndexTape | main.js:750-775 | run, `varCopyByIndex` leaves the destination holding the source's byte, the source unchanged, the scratch cell 0 and free, nothing else changed, the state still describing the tape |
| CodegenTape.FreeTape | main.js:655-676 | run, freeing an int8 variable with zero fill clears its cell, touches no other, and keeps the state describing the tape |
| CodegenTape.OnesGain | new.js:1045-1049 | one `+` per listed cell: a cell listed once gains one, any other nothing |
| CodegenTape.SpreadLoopTape | new.js:1043-1052 | the shared loop of the array write adds the counter's value to every listed cell, ends the counter at 0 and changes nothing else |
| CodegenTape.WriteEachTape | new.js:1054-1057 | the per-cell writes add each value's excess over the minimum to its own cell and change nothing else |
| CodegenTape.MinTopUp | new.js:1036-1059 | cells holding the minimum, each topped up by its excess, hold the values |
| CodegenTape.SpreadMinTape | new.js:1037-1052 | the first half of the array write: every (empty) cell ends holding the minimum |
| CodegenTape.WriteArrayTape | new.js:1036-1059 | run on empty cells, the array write leaves the k-th cell holding the k-th value mod 256, releases its temporary and changes no other cell |
| CodegenTape.ReleaseTape | old_lang.js:224 | releasing the already-zero temporary changes no cell in either revision |
| CodegenTape.CreateStringTape | new.js:1116-1137 | run, `varCreate_String` leaves the k-th fresh cell holding the k-th character code mod 256, other cells unchanged, the state still describing the tape |
| Compile.ChildAt | main.js:847-864 | `node.childs[k]` is the k-th child when there is one and otherwise throws a TypeError |
| Compile.PlusOperand | main.js:877-901 | an operand of `plus` that is a name stands for itself; a node neither a name nor a number throws |
| CompileTape.TempNamesDiffer | main.js:903-904 | temporary names made from different counter values differ |
| CompileTape.FreshBind | main.js:882-904 | binding a name made from a passed counter value leaves the names still to come unbound |
| CompileTape.OperandRun | main.js:877-901 | run, each operand of `plus` ends up a one-cell variable holding its byte: a name as it is, a literal in a new int8 temporary |
| CompileTape.CopiesRun | main.js:903-907 | run, the two copies of `plus` put the operands' bytes in the least free cell and the next; no other cell changes |
| CompileTape.DrainRun | main.js:912-918 | `s2[- s1+ s2]` adds the second copy's byte to the first |
| CompileTape.FreesRun | main.js:920-927 | the frees of `plus` zero the second copy and each literal temporary and change no other cell |
| CompileTape.SumRun | main.js:912-930 | the rest of `plus`, run: the first copy holds the byte sum, the others are 0, the pointer parked on the first copy |
| CompileTape.PlusVars | main.js:865-932 | `plus` leaves exactly one new binding, the first copy; the temporaries and second copy are gone again |
| CompileTape.PlusMemory | main.js:865-932 | `plus` leaves occupied the cells occupied before plus the first copy's |
| CompileTape.PlusCells | main.js:865-932 | every cell `plus` touches other than the first copy ends as it started |
| CompileTape.PlusTape | main.js:865-932 | `plus` on two usable operands succeeds; run, its code leaves the byte sum in a fresh cell and changes no other cell |
| CompileTape.CopyAssigned | main.js:857-861 | copying an occupied cell binds the target to a cell free before that now holds the source's byte; no occupied cell changes |
| CompileTape.CreateAssigned | main.js:863 | creating the target from a whole number binds it to a cell free before that holds the number as `varCreate_Int8` stores it |
| CompileTape.PlusAssigned | main.js:850-856 | `plus` then the copy of its cell binds the target to a fresh cell holding the byte sum of the operands |
| CompileTape.SetMainTape | main.js:847-864 | `set x = e` on a `plus`, a bound name or a whole number succeeds; run, x is bound to a cell free before that holds e's byte, nothing is printed and no occupied cell changes |
| CompileTape.AssignNewTape | new.js:1371-1399 | the same for new.js `x = e` on a `plus`, an identifier or a whole number |
| CompilerImpl.Compiler.constructor | main.js:603-609 | empty text, pointer 0, nothing allocated, counter 0, no open block, the given revision |
| CompilerImpl.Compiler.GetIotaSecureIndex | main.js:610-612 | returns the counter and advances it by one |
| CompilerImpl.Compiler.MemoryGetFreeIndex | main.js:616-624 | the loop answers the least free cell: it is free and every cell below it is occupied |
| CompilerImpl.Compiler.MemoryPointerByIndex | main.js:638-647 | the state after the loop is the move of `Codegen.MoveTo` |
| CompilerImpl.Compiler.MemoryPointerByName | main.js:626-637 | the move to the name's cell, or the TypeError of an unbound name |
| CompilerImpl.Compiler.MemoryAllocate | main.js:648-654 | the name is bound to the cell, which becomes occupied |
| CompilerImpl.Compiler.MemoryFree | main.js:655-676 | the state or error is `Codegen.Free`'s (partner: `Codegen.FreeEffect`, `CodegenTape.FreeTape`) |
| CompilerImpl.Compiler.MemoryWriteLinear | main.js:677-681 | the loop appends exactly the `+` run of the value |
| CompilerImpl.Compiler.MemoryWriteOptimized | main.js:682-709 | the state is `Codegen.WriteOptimized`'s (partner: `WriteSmall`, `WriteLarge`, `CodegenTape.WriteTape`) |
| CompilerImpl.Compiler.VarCreateInt8 | main.js:777-789 | the state or error is `Codegen.CreateNumber`'s |
| CompilerImpl.Compiler.VarCreate | main.js:735-746 | by `typeof`: a number as int8, a string by the revision's rule, anything else throws "unsupported type" |
| CompilerImpl.Compiler.VarCreateString | new.js:1116-1137 | main.js throws "string var crreate does not work" at once (main.js:790), so its type check is never reached; new.js and old_lang.js take the cells, bind the name and write the codes |
| CompilerImpl.Compiler.VarCopyByIndex | main.js:750-775 | the state is `Codegen.CopyByIndex`'s (partner: `CopyByIndexEffect`, `CodegenTape.CopyByIndexTape`) |
| CompilerImpl.Compiler.VarCopyByName | main.js:747-749 | the copy of the source's cell, or the TypeError of an unbound source |
| CompilerImpl.Compiler.CompileNode | main.js:843-957 | `compile(node)` for main.js and new.js: the state or error is `Compile.Compiles`'s, which dispatches by node type and otherwise compiles the children in order |
| CompilerImpl.Compiler.SetCase | main.js:847-864 | main.js `set`: the state or error of `Compile.SetMain` (partner: `CompileTape.SetMainTape`) |
| CompilerImpl.Compiler.AssignCase | new.js:1371-1399 | new.js `assign`: the state or error of `Compile.AssignNew` (partner: `CompileTape.AssignNewTape`) |
| CompilerImpl.Compiler.DivCase | new.js:1400-1407 | new.js `div`: the state or error of `Compile.DivNew` |
| CompilerImpl.Compiler.OutMainCase | main.js:937-947 | main.js `out`: to the cell, `.`, walk back |
| CompilerImpl.Compiler.OutNewCase | new.js:1480-1511 | new.js `out`: a string prints its cells, an int8 prints nothing, the pointer walks back |
| CompilerImpl.Compiler.OutCells | new.js:1485-1488 | one walk and one `.` per cell, in order |
| CompilerImpl.Compiler.PlusOperand | main.js:877-901 | the name used for an operand, whether it is a temporary, and the state, as `Compile.PlusOperand` gives them |
| CompilerImpl.Compiler.PlusCase | main.js:865-932 | the state or error of `Compile.Plus` (partner: `CompileTape.PlusTape`) |
| CompilerImpl.Compiler.PlusCopies | main.js:903-907 | the copy names are `compilator_k` and `compilator_k+1`; the state is `Compile.Copies`'s |
| CompilerImpl.Compiler.SumCopies | main.js:912-930 | the drain, the frees and the final move, as `Compile.Sum` |
| CompilerImpl.Compiler.Division2 | new.js:1244-1365 | the name of q and the state, or the error, as `Compile.Division2` gives them |
| CompilerImpl.Compiler.DivisionRest | new.js:1252-1364 | the part of `Division2` after both copies, as `Compile.DivisionRest` |
| CompilerImpl.Compiler.ZeroTemps | new.js:1252-1263 | the four temporaries are `division_temp_k` … `division_temp_k+3`, each created with 0 |
| CompilerImpl.Compiler.ZeroTemp | new.js:1252-1253 | one temporary: the name `division_temp_k` from the counter, created with 0, the counter advanced |
| CompilerImpl.Compiler.DivisionFinish | new.js:1265-1364 | the loops and frees of `Division2`, as `Compile.DivisionEnd` |
| CompilerImpl.Compiler.DivisionText | new.js:1265-1354 | the loops of `Division2` on the six cells, as `Compile.DivisionLoops` |
| CompilerImpl.Compiler.TakeCells | new.js:1122-1129 | the loop takes the fresh cells of `FreshCells` and the codes of `Codes`, marks them occupied and emits nothing |
| CompilerImpl.Compiler.TakeFree | new.js:1125-1128 | the cell taken is the least free one and becomes occupied; nothing else changes |
| CompilerImpl.Compiler.MemoryWriteArrayOptimized | new.js:1036-1059 | the state or error of `Codegen.WriteArray` for the revision (partner: `CodegenTape.WriteArrayTape`) |
| CompilerImpl.Compiler.DeleteVar | old_lang.js:53-65 | the state is `Codegen.DeleteVar`'s (partner: `DeleteVarKeepsCells`) |
| CompilerImpl.Compiler.SpreadLoop | new.js:1043-1052 | the loop emits `[`, a walk with one `+` per cell, the walk back, `-`, `]` |
| CompilerImpl.Compiler.WriteExcess | new.js:1054-1057 | the loop emits each cell's walk and excess write, as `Codegen.WriteEach` |
| CompilerImpl.Compiler.CopyTemps | old_lang.js:96-101 | the copy and scratch names taken from the counter, each created as int8 with 0 |
| CompilerImpl.Compiler.CreateVarCopyPointersSafe | old_lang.js:96-130 | the copy's name and state, or the error, of `OldLang.CopyPointersSafe` |
| CompilerImpl.Compiler.CreateVarCopy | old_lang.js:66-95 | the copy's name and state, or the error, of `OldLang.CreateVarCopy` |
| CompilerImpl.Compiler.AreEqual | old_lang.js:226-254 | the equality cell's name and state, or the error, of `OldLang.AreEqual` (partner: `OldLangTape.AreEqualTape`) |
| CompilerImpl.Compiler.VarLine | old_lang.js:268-281 | `var` as `OldLang.VarLine`: created with 0, with a number, or the line's error |
| CompilerImpl.Compiler.AddLine | old_lang.js:282-307 | `add` as `OldLang.AddLine` (partner: `OldLangTape.AddTape`) |
| CompilerImpl.Compiler.OutLine | old_lang.js:308-351 | `out` as `OldLang.OutLine` (partner: `OldLangTape.OutInt8Tape`, `OutStrTape`) |
| CompilerImpl.Compiler.ToStringArm | old_lang.js:326-348 | the `tostring` arm always succeeds on an int8 and gives `OldLang.ToString`'s state (partner: `OldLangTape.ToStringTape`) |
| CompilerImpl.Compiler.IfLine | old_lang.js:352-380 | `if` as `OldLang.IfLine` (partner: `OldLangTape.IfBlockTape`) |
| CompilerImpl.Compiler.IfEqual | old_lang.js:363-373 | the block opens on the cell `AreEqual` returns, or `AreEqual`'s error |
| CompilerImpl.Compiler.OpenBlock | old_lang.js:367-372 | walk to the int8 cell, `[`, the frame pushed |
| CompilerImpl.Compiler.CloseLine | old_lang.js:381-421 | `endif`/`endfor` as `OldLang.CloseLine` (partner: `OldLangTape.CloseBlock`) |
| CompilerImpl.Compiler.ForLine | old_lang.js:391-411 | `for` as `OldLang.ForLine` (partner: `OldLangTape.ForBlockTape`) |
| CompilerImpl.Compiler.Line | old_lang.js:256-428 | one line: blank and `//` lines skipped, dispatch on the first word, unknown words give the "undefined operator" text |
| CompilerImpl.Compiler.Dispatch | old_lang.js:267-428 | the `switch` on the first word: each keyword goes to its arm, any other word gives the "undefined operator" text |
| CompilerImpl.ConvertOld | old_lang.js:9-432 | `convert_old` is `OldLang.Convert`: lines in order until one returns or throws, else the emitted text |
| CompilerImpl.RunLines | old_lang.js:256-430 | the loop over the lines ends with `OldLang.Lines` of the start state, the lines and 0 |
| CompilerImpl.LineStep | old_lang.js:256-430 | one turn of the loop: either the final outcome or the same outcome from the next line on |
| CompilerImpl.WriteLargeText | main.js:682-709 | the text the method appends from 11 up is the text `Codegen.WriteOptimized` describes |
| CompilerImpl.DivisionFirstFails | new.js:1246-1248 | `Division2` throws what the dividend's copy throws |
| CompilerImpl.DivisionSecondFails | new.js:1249-1251 | `Division2` throws what the divisor's copy throws |
| CompilerImpl.LeastFree | main.js:616-624 | `FirstFree` is the only free cell with every cell below it occupied |
| OldLang.CopyNamesApart | old_lang.js:97-98 | copy names taken at different counter values differ whatever names they copy |
| OldLang.CopyNameLonger | old_lang.js:97 | a copy name is longer than, hence different from, the name it copies |
| OldLang.CopySetupEffect | old_lang.js:96-101 | the two temporaries take the least free cell and the next, with walks only |
| OldLang.CopyPointersSafeEffect | old_lang.js:96-130 | the copy is bound to the least free cell, the scratch to the next, which stays occupied; counter +2; pointer on the scratch cell |
| OldLang.CopyPointersSafeOk | old_lang.js:96-130 | a copy of an int8 name succeeds |
| OldLang.CreateVarCopyEffect | old_lang.js:66-95 | `createVarCopy`: the copy and the rebound name take the two least free cells, old cell kept occupied |
| OldLang.CopyBound | old_lang.js:96-130 | a copy that succeeds was of a name bound to one cell (an int8, or a string of one cell) and binds its copy name to the copy's cell |
| OldLang.AreEqualBound | old_lang.js:226-254 | a comparison that succeeds leaves the left copy bound to the returned cell |
| OldLangTape.CopyPointersSafeTape | old_lang.js:96-130 | run, the copy's cell holds the source's value and no other cell changes |
| OldLangTape.CreateVarCopyTape | old_lang.js:66-95 | run, `createVarCopy` moves the value into both new cells, empties the old one and changes nothing else |
| OldLangTape.UnequalLoop | old_lang.js:241-249 | `b[a- b[-]]` on a non-zero `b` takes one from `a` and clears `b` |
| OldLangTape.CompareTape | old_lang.js:233-249 | the comparison leaves `a` at 1 when the copies held the same byte and 0 otherwise, `b` at 0 |
| OldLangTape.AreEqualTape | old_lang.js:226-254 | run, `AreEqual` on two int8 variables leaves 1 exactly for equal bytes, 0 otherwise; no other cell changes |
| OldLangTape.CloseBlock | old_lang.js:381-389 | a block opened on a cell and closed is the walk to that cell and one loop `[body <back> -]` |
| OldLangTape.BlockRuns | old_lang.js:381-421 | that loop runs its body's pass as many times as the cell holds |
| OldLangTape.IfBlockTape | old_lang.js:352-390 | `if a = b` … `endif` computes the equality cell, then runs the body once when equal and never otherwise |
| OldLangTape.ForBlockTape | old_lang.js:391-421 | `for k` … `endfor` runs the body k mod 256 times (never for a negative k) |
| OldLangTape.AddTape | old_lang.js:282-307 | `add x y` on same-type int8 variables: x ends at the sum mod 256, y keeps its value (doubling when x is y), nothing else changes |
| OldLangTape.OutInt8Tape | old_lang.js:308-351 | `out x` prints x's byte and changes only the pointer |
| OldLangTape.OutEachTape | old_lang.js:316-320 | the string loop prints the cells in order |
| OldLangTape.OutStrTape | old_lang.js:308-351 | `out s` of a string prints its bytes in order |
| OldLangTape.ToStringTape | old_lang.js:326-348 | `out x tostring` on an int8 prints x's byte plus 48 mod 256; x keeps its value and only cells free before change |
| OldLangTape.ToStringEnd | old_lang.js:336-344 | the counter emptied into the copy, then the copy printed: the printed byte is their sum |
| OldLangTape.CounterTape | old_lang.js:327-330 | the counter cell is the least free one and holds 48; no other cell changes |
| LenOptimizer.ReplaceFirst | main.js:53-67 | `replace` of a two-character pattern shortens the text by two when the pattern occurs and otherwise returns it unchanged |
| LenOptimizer.ReplaceFirstAt | main.js:53-67 | what `replace` removes is the first occurrence of the pattern, the text before and after it kept |
| LenOptimizer.RoundShrinks | main.js:53-67 | a round never lengthens the text, and a round that changes it shortens it, so the loop ends |
| LenOptimizer.RoundFixed | main.js:53-67 | a round that changes nothing found none of the four pairs |
| LenOptimizer.Run | main.js:53-67 | the `do`/`while` loop computes `Optimize` |
| LenOptimizer.OptimizeClean | main.js:53-67 | the result holds none of `<>`, `><`, `+-`, `-+` |
| LenOptimizer.OptimizeIdempotent | main.js:53-67 | running the pass on its own result changes nothing |
| LenOptimizer.OptimizeSubseq | main.js:53-67 | the pass only deletes characters |
| TreeOut.PrintSub | main.js:565-596 | the recursive printer computes `Sub`, a subtree's indented rows |
| TreeOut.PrintTree | main.js:598-600 | the method computes `Print`, the indented pre-order text of the whole tree |
| TreeOut.RowsPreOrder | main.js:565-596 | as many rows as nodes, row k ending with the k-th pre-order node's label |
| TreeOut.PrintLines | main.js:564-601 | for a tree with no line break in any text, the output is `Size(n)` newline-terminated lines, the k-th ending with the k-th node's label, the first the root's label alone |
| LexerMain.SkipSpaces | main.js:120-123 | the first index from `i` that is not white space; all before it are |
| LexerMain.RunEnd | main.js:202-210 | a run ends at the first later index outside its class |
| LexerMain.GetToken | main.js:112-263 | the token starts at `index`, ends within the text, and advances while text remains |
| LexerMain.GetTokenEof | main.js:120-129 | white space is skipped; `eof` at the end exactly when only white space remains |
| LexerMain.GetTokenPunct | main.js:131-195 | `==` is `equal`, a lone `=` `assign`, `"` `quot`; the call throws exactly on a character starting no token |
| LexerMain.GetTokenRuns | main.js:202-263 | a number is a maximal digit run carrying it; a word a maximal letter run, a keyword when it spells one, else `text` carrying it |
| LexerMain.TokensChained | main.js:40-51 | the tokens are contiguous in source order, each advancing, the last ending at the end |
| LexerMain.TokensFail | main.js:40-51 | when lexing throws, it throws the unexpected-syntax message |
| LexerMain.ReadToken | main.js:112-263 | the loops of `getToken` compute the corrected `GetToken` |
| LexerMain.ReadRun | main.js:202-210 | the run loop stops at `RunEnd` and its value is the run |
| LexerMain.GetTokens | main.js:40-51 | the loop computes `TokensFrom`, the token list of the corrected `GetToken` |
| ParserMain.Current | main.js:544-546 | `currentToken` is the token's type inside the list and throws past it |
| ParserMain.ParseIdentifier | main.js:336-350 | on success a `text` leaf of the token's value, one token consumed |
| ParserMain.ParseSumma | main.js:373-393 | on success the cursor advances and stays in the list |
| ParserMain.ParseStatement | main.js:464-542 | on success a node, the cursor advanced at most one past the list |
| ParserMain.ElseBranch | main.js:487-496 | no `else` node leaves the cursor where it was |
| ParserMain.ParseProgram | main.js:552-561 | on success a `root` node without text |
| ParserMain.SummaFoldsLeft | main.js:373-393 | `a op b op c …` folds to the left, consuming every pair |
| ParserMain.SummaExample | main.js:373-393 | `a + b - c;` parses as minus(plus(a, b), c) |
| ParserMain.TestTakesOne | main.js:395-421 | `a < b < c` takes one comparison and leaves the second operator unread |
| ParserMain.ExpressionFoldsRight | main.js:423-444 | `a = b = c` parses as set(a, set(b, c)) |
| ParserMain.ExpressionSet | main.js:423-444 | an expression begun by a word is `set` exactly when its test is a lone word followed by `=`, the right side a whole expression |
| ParserMain.SummaRestKind | main.js:373-393 | the sum loop yields its start or a `plus`/`minus` node |
| ParserMain.TestFromWord | main.js:395-421 | a test begun by a word is never a `set` node |
| ParserMain.SyntaxParser.constructor | main.js:331-334 | tokens stored, index 0, an empty `root` |
| ParserMain.SyntaxParser.CurrentToken | main.js:544-546 | as `Current` |
| ParserMain.SyntaxParser.Identifier | main.js:336-350 | result and index as `ParseIdentifier` |
| ParserMain.SyntaxParser.Term | main.js:352-371 | result and index as `ParseTerm` |
| ParserMain.SyntaxParser.Summa | main.js:373-393 | the loop's result and index as `ParseSumma` |
| ParserMain.SyntaxParser.Test | main.js:395-421 | result and index as `ParseTest` |
| ParserMain.SyntaxParser.Expression | main.js:423-444 | result and index as `ParseExpression` |
| ParserMain.SyntaxParser.ExpressionParen | main.js:446-462 | result and index as `ParseParen` |
| ParserMain.SyntaxParser.Statement | main.js:464-542 | result and index as `ParseStatement` |
| ParserMain.SyntaxParser.FuncArm | main.js:467-476 | the `func` arm as `FuncStatement` |
| ParserMain.SyntaxParser.IfArm | main.js:477-496 | the `if` arm as `IfStatement` |
| ParserMain.SyntaxParser.ElseArm | main.js:487-496 | the `else` continuation as `ElseBranch` |
| ParserMain.SyntaxParser.OutArm | main.js:497-506 | the `out` arm as `OutStatement`: one more token skipped |
| ParserMain.SyntaxParser.ExpressionArm | main.js:528-539 | any other statement as `ExpressionStatement` |
| ParserMain.SyntaxParser.Braces | main.js:516-527 | the braced block's loop as `ParseStatement` |
| ParserMain.SyntaxParser.BuildAst | main.js:552-561 | the result is `ParseProgram`, and on success `root` is it |
| TokenizerNew.RunEnd | new.js:204-225 | a run from `i` ends at the first index outside the class |
| TokenizerNew.QuoteEnd | new.js:186-200 | a string body ends at the first quote or the end of the text |
| TokenizerNew.NextToken | new.js:64-260 | `null` exactly once the cursor is at or past the end; otherwise a token starting at the cursor that moves it forward, at most one past the end, with values on strings, numbers and identifiers |
| TokenizerNew.NextTokenEof | new.js:79-88 | white space is skipped; `eof` at the end exactly when only white space remains |
| TokenizerNew.NextTokenPunct | new.js:90-183 | `==` is `equal`, a lone `=` `assign`; the call throws exactly on a character starting no token |
| TokenizerNew.NextTokenString | new.js:186-200 | a string carries everything to the next quote and the cursor passes it; unterminated, the rest of the text with the cursor one past the end |
| TokenizerNew.NextTokenRuns | new.js:204-256 | a number is a maximal digit run carrying it; a word a maximal word-character run, a keyword or an `identifier` carrying it |
| TokenizerNew.WhileIsMissing | new.js:243-246 | `while` gets the type `undefined` |
| TokenizerNew.TokenListChained | new.js:559-577 | the collected tokens are in source order and only the last may reach the end |
| TokenizerNew.Tokenizer.constructor | new.js:47-51 | an empty text and cursor 0 until `init` sets both |
| TokenizerNew.Tokenizer.Init | new.js:48-51 | text stored, cursor 0 |
| TokenizerNew.Tokenizer.GetNextToken | new.js:64-260 | the token is `NextToken` at the old cursor, and the cursor moves past it |
| TokenizerNew.Tokenizer.SkipSpace | new.js:79-82 | the loop stops at `SkipSpaces` |
| TokenizerNew.Tokenizer.ReadString | new.js:190-195 | the loop stops at `QuoteEnd`; the value is the body |
| TokenizerNew.Tokenizer.ReadRun | new.js:206-223 | the loop stops at `RunEnd`; the value is the run |
| TokenizerNew.GetTokens | new.js:559-577 | the loop collects `TokenList` |
| ParserNew.LookKind | new.js:319 | the lookahead's type, a TypeError on `null` |
| ParserNew.Accept | new.js:302-316 | `_take`: the lookahead when its type matches, then the next token read; "Unexpected end of input" on `null`, "Unexpected token" on a mismatch |
| ParserNew.LeafOf | new.js:473-503 | the leaf of the taken token's value |
| ParserNew.ParseLiteral | new.js:453-470 | a literal tree; any other token throws "Unexpected token" |
| ParserNew.ParseParen | new.js:418-436 | on success an expression tree, progress made |
| ParserNew.ParseTerm | new.js:439-450 | on success an expression tree, progress made |
| ParserNew.ParseDiv | new.js:358-375 | on success an expression tree, progress made |
| ParserNew.ParseSumma | new.js:378-395 | on success an expression tree, progress made |
| ParserNew.ParseTest | new.js:398-415 | on success an expression tree, progress made |
| ParserNew.ParseExpression | new.js:336-355 | on success an expression tree, progress made |
| ParserNew.ParseStatement | new.js:318-333 | on success progress made and any node a statement tree |
| ParserNew.ParseStatements | new.js:291-297 | the loop keeps the list one of statement trees |
| ParserNew.Start | new.js:281-290 | the first token read into the lookahead, a valid position |
| ParserNew.ParseIsProgram | new.js:281-300 | every tree `parse` returns is a `root` over statement trees |
| ParserNew.StatementStart | new.js:318-333 | a statement begun by any other token (`if`, `func`, braces, `while`, a second `+`) throws "Unexpected token" |
| ParserNew.OperandTerm | new.js:439-450 | a term of one identifier or number is its leaf, the next token read |
| ParserNew.MissingTerminator | new.js:358-364 | `a=1` throws a TypeError, since `Div` reads the type of a `null` lookahead |
| ParserNew.OperandSumma | new.js:358-415 | a lone operand before a closing token is its leaf as a sum and as a test |
| ParserNew.Precedence | new.js:336-415 | over any identifiers or numbers, `x / y + z < w` (with `+` or `-`, `<` or `==`) parses as less(plus(div(x, y), z), w) and stops before the closing token |
| ParserNew.SumFirst | new.js:378-415 | `a + b` before `=` is the test plus(a, b), with `=` left in the lookahead |
| ParserNew.AssignAfterSum | new.js:336-355 | begun by an identifier, `a + b = c` parses as assign(plus(a, b), c) |
| ParserNew.NoAssignAfterNumber | new.js:318-355 | begun by a number, `1 + b = c` stops at plus(1, b) before the `=`, and a statement starting at that `=` throws "Unexpected token" |
| ParserNew.Parser.constructor | new.js:276-279 | an empty text and a fresh tokenizer, no lookahead |
| ParserNew.Parser.Take | new.js:302-316 | result and position as `Accept` |
| ParserNew.Parser.LeafToken | new.js:473-503 | result and position as `LeafOf` |
| ParserNew.Parser.Literal | new.js:453-470 | result and position as `ParseLiteral` |
| ParserNew.Parser.ExpressionParen | new.js:418-436 | result and position as `ParseParen` |
| ParserNew.Parser.Term | new.js:439-450 | result and position as `ParseTerm` |
| ParserNew.Parser.Div | new.js:358-375 | result and position as `ParseDiv` |
| ParserNew.Parser.Summa | new.js:378-395 | result and position as `ParseSumma` |
| ParserNew.Parser.Test | new.js:398-415 | result and position as `ParseTest` |
| ParserNew.Parser.Expression | new.js:336-355 | result and position as `ParseExpression` |
| ParserNew.Parser.Statement | new.js:318-333 | result and position as `ParseStatement` |
| ParserNew.Parser.Parse | new.js:281-300 | the loop's result is `ParseProgram` |
| Pipeline.CompileMainOptimized | main.js:9-38 | main.js's output holds none of the four pairs, is the compiled text with characters deleted, and is a fixed point of the pass |
| Pipeline.CompileNewSteps | new.js:513-557 | every text new.js cannot parse gives a TypeError; what compiles is a program tree and the output is the compiler's own text |
| Pipeline.CompileMainJs | main.js:9-38 | the stage objects compute `CompileMain`, with the corrected lexer |
| Pipeline.CompileNewJs | new.js:513-557 | the stage objects compute `CompileNew` |

## Left out

- I/O is not modelled: the DOM handlers, `console.log`/`group` output and
  the textareas. The printed tree and the token dump are computed and then
  dropped.
- new.js `Division` (new.js:1169-1243) is never called, so it is not
  modelled.
- CompilerImpl.Compiler.Division2: equals `Compile.Division2`, which gives
  the resulting names and code text; no lemma states the bindings or the
  tape the code leaves, nor that q holds the quotient.
- CompilerImpl.Compiler.DivisionRest: equals `Compile.DivisionRest`; no
  lemma states what its code does on the tape.
- CompilerImpl.Compiler.DivisionFinish: equals `Compile.DivisionEnd`; no
  lemma states what its loops compute or which cells its frees leave free.
- CompilerImpl.Compiler.DivisionText: equals `Compile.DivisionLoops`; no
  lemma states what the loops compute.
- CompilerImpl.Compiler.DivCase: equals `Compile.DivNew`; no tape lemma
  covers `div`.
- The main.js `AreEqual` (main.js:813-841) and the new.js `AreEqual`
  (new.js:1139-1167) are never called, so they are not modelled. Only
  old_lang.js's `AreEqual` is.
- The second `SyntaxParser` in new.js (new.js:644-888) is a copy of
  main.js's that new.js never uses, so it is not modelled again.
- Pipeline.CompileMain: it covers only texts that fail to lex or lex to no
  `while` token (`Pipeline.Terminates`). A `while` at the start of a
  statement is left unread and `buildAst` loops forever (main.js:507-508).
  The precondition also excludes texts with a `while` elsewhere that main.js
  does finish on: in `x = while;`, `Term` calls `ExpressionParen`, which
  throws `"(" expected` (main.js:366, 448-450).
- ParserMain.ParseStatement: has the same `NoWhile` precondition, with the
  same gap.
- ParserMain.ParseProgram: has the same `NoWhile` precondition, with the
  same gap.
- ParserMain.ElseBranch: has the same `NoWhile` precondition, with the same
  gap.
- ParserMain.SyntaxParser.Statement: has the same `NoWhile` precondition,
  with the same gap.
- ParserMain.SyntaxParser.FuncArm: has the same `NoWhile` precondition, with
  the same gap.
- ParserMain.SyntaxParser.IfArm: has the same `NoWhile` precondition, with
  the same gap.
- ParserMain.SyntaxParser.ElseArm: has the same `NoWhile` precondition, with
  the same gap.
- ParserMain.SyntaxParser.Braces: has the same `NoWhile` precondition, with
  the same gap.
- ParserMain.SyntaxParser.BuildAst: has the same `NoWhile` precondition,
  with the same gap.
- LexerMain.TokensFrom: is built on the corrected `GetToken`, not on
  main.js's loops as written. A number or word that ends the text (`12`,
  `x = out`) is read as the run itself; main.js appends `undefine` to it
  (main.js:202-227). Only `LexerMain.GetTokenAsWritten` follows the code
  there.
- LexerMain.ReadRun: computes the corrected run, for the same reason.
- LexerMain.ReadToken: computes the corrected `GetToken`, for the same reason.
- LexerMain.GetTokens: computes the corrected `TokensFrom`, for the same
  reason.
- Pipeline.CompileMain: uses the corrected lexer too. On a text ending in a
  number or word its outcome can differ from main.js's: on `x = out` the
  model throws `"(" expected`, while main.js reads the word `outundefine`
  and fails later with a TypeError.
- Pipeline.CompileMainJs: computes `CompileMain` and so uses the corrected
  lexer too.
- Codegen.CellOf: a string of more than one cell used as one cell gives the
  error `StringCellMessage`. In JavaScript the index list converts to NaN,
  and the compiler goes on emitting walks computed from NaN
  (old_lang.js:31-40, 107-123; main.js:626-637). That output is not
  modelled.
- CompilerImpl.Compiler.MemoryPointerByName: stops with the error of
  `Codegen.CellOf` on a string of more than one cell, for the same reason.
- CompilerImpl.Compiler.VarCopyByName: stops with the error of
  `Codegen.CellOf` on a string of more than one cell, for the same reason.
- CompilerImpl.Compiler.AddLine: stops with the error of `Codegen.CellOf`
  when `add` names a string of more than one cell, for the same reason.
- CompilerImpl.Compiler.IfLine: stops with the error of `Codegen.CellOf`
  when `if` compares strings of more than one cell, for the same reason.
- JsValue.Number: numbers are exact. JavaScript reads them as doubles:
  `9007199254740993` becomes `9007199254740992`, and `1e400` becomes
  Infinity. The model keeps the exact integer in both cases, and keeps a
  fraction's decimal digits.
- CompilerImpl.Compiler.VarLine: takes the exact integers of `JsValue.Number`,
  so it differs from old_lang.js on numbers a double cannot hold.
- CompilerImpl.Compiler.ForLine: takes the exact integers of
  `JsValue.Number`, so it differs from old_lang.js on numbers a double cannot
  hold.
- Codegen.Codes: the codes are Dafny characters, that is Unicode scalar
  values. JavaScript's `charCodeAt` and `length` count UTF-16 code units, so
  a character beyond U+FFFF takes two cells in the source and one in the
  model.
- CompileTape.SetMainTape: covers `plus`, name and whole-number right sides
  whose target is not a name of the form `compilator_k`; a non-integer
  literal throws instead and is stated by `Codegen.CreateNumber`. It also
  requires `Fresh`, so a state where the program already bound a name
  `compilator_k` or `translator_temp_line_k` with k at least the counter
  is not covered.
- CompileTape.AssignNewTape: covers `plus`, identifier and whole-number right
  sides; a `div` or a string right side is not covered. Its `Fresh`
  leaves out states where the program bound a name `compilator_k` or
  `translator_temp_line_k` with k at least the counter, as after
  `compilator_5 = 1;`.
- OldLangTape.ToStringTape: does not cover printing the counter's own name
  `translator_for_index_line_N` on line N, which the counter rebinds.
- TokenizerNew.Tokenizer.constructor: JavaScript leaves both fields
  undefined until `init`. The model starts them at "" and 0.
- For a `SyntaxError` object, new.js's parser errors keep only the message
  (new.js:306, 310).
- old_lang.js's `operators.length < 1` branch (old_lang.js:263-265) is
  unreachable: `split` always gives one piece. The model shows this with
  `JsValue.Split`.
- new.js's `Tokenizer.eof` prints a "Cursor overflow" warning
  (new.js:58-60) to the console only, so it is not modelled.
- LexerMain.TokensFail states only the message a failing lex throws, not the
  position that throws it.
- ParserNew.ParseSumma: the contract states a well-formed expression tree
  and progress only, as for the other six grammar functions below. A
  parenthesised term leaves no mark in the tree, so which tree a call
  returns cannot be read off its result alone. Exact trees are proved for
  operand chains by `Precedence`, `SumFirst`, `AssignAfterSum` and
  `NoAssignAfterNumber`.
- ParserNew.ParseParen: states a well-formed expression tree and progress
  only; that `( e )` is the tree of e is not proved.
- ParserNew.ParseTerm: states a well-formed expression tree and progress
  only; the operand case is stated exactly by `OperandTerm`.
- ParserNew.ParseDiv: states a well-formed expression tree and progress
  only; the tree of `x / y` over operands is stated within `Precedence`.
- ParserNew.ParseTest: states a well-formed expression tree and progress
  only; exact trees over operands are stated by `Precedence` and `SumFirst`.
- ParserNew.ParseExpression: states a well-formed expression tree and
  progress only; the `assign` rule is stated over operand chains by
  `AssignAfterSum` and `NoAssignAfterNumber`, not for every left side.
- ParserNew.ParseStatement: states progress and a statement tree only; the
  exact tree of each statement form is not proved.
- ParserNew.ParseStatements: states that the list holds statement trees
  only, not which trees.
- Brainfuck loops run with fuel. A byte counter bounds every counted loop at
  256 passes. A loop that would never end is not modelled.

## Findings

| source | as written | input that shows it | evidently intended | confidence | as-written member | corrected member |
|---|---|---|---|---|---|---|
| main.js:202-227 | a number or word that ends the text reads `code[code.length]`, appending `"undefined"`, and `slice(0, -1)` drops only its `d` | `"12"` lexes as the number `"12undefine"`; `"out"` lexes as the word `"outundefine"`, not the keyword | the value is exactly the run | not executed | LexerMain.AsWrittenDiffers | LexerMain.GetTokenRuns |
