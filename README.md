# ketos bytecode compiler and module loader, in Dafny

This project models two parts of ketos, a Lisp dialect implemented in Rust.

The first part is the bytecode compiler of `src/ketos/compile.rs`. A `Compiler` turns one
expression, or one lambda body, into instructions grouped in basic blocks. While it does so it:

- keeps a pool of the constants those instructions refer to;
- tracks the named values on the stack and the running stack depth (`stack_offset`);
- records the names of enclosing lambdas that the lambda captures.

Special forms (`let`, `define`, `macro`, `if`, `and`, `or`, `case`, `cond`, `lambda`,
`export`, `use`, `struct`, `apply`, `do`) are compiled by the operator functions of the same
file. Quasiquotes and a few calls that the compiler inlines are compiled there too. At the end
`write_jumps` lays the blocks out: it drops blocks that only return, and rewrites jump targets
from block numbers to code offsets.

The second part is the module machinery of `src/ketos/module.rs`:

- `ModuleBuilder`, which defines values and then exports all of them;
- `ModuleRegistry`, which caches loaded modules;
- the built-in modules `code`, `math` and `random`;
- `FileModuleLoader`, which resolves a module name to `<name>.kts` or `<name>.ktsc`, prefers
  the compiled file when it is younger, and refuses import cycles;
- `check_exports`, which requires a source module to declare what it exports and to define
  every name in that list.

The project has these modules:

- `Names` — names as numbers and the standard names.
- `Wrappers` — `Option`, `Result` and `Outcome`.
- `Values` — the value tree.
- `Errors` — the compile errors.
- `Bytecode` — the instructions, their effect on the stack depth, and code blocks with their
  well-formedness.
- `Params` — the parameter lists of `make_lambda`.
- `Scopes` — the global scope and imports.
- `Frames` — the search for a captured name through enclosing compilers.
- `Layout` — `write_jumps`.
- `Compile` — the `Compiler` class and the operators.
- `Modules` — module.rs.

The compiler is a class whose methods update its fields in place. Every compiling method
promises two things:

- `Valid()`: every instruction and jump refers to an existing block, constant and capture,
  and the captures are distinct names visible from this compiler.
- On success, `Balanced()`: the named stack and the stack depth are as they were before the
  method ran.

## Model

| member | source | states |
|---|---|---|
| Bytecode.AppendDrift | src/ketos/compile.rs:897-927 | With `push_instruction`'s adjustments as written, `Push` then `Append` raises the depth by one while `Push` then `Eq` leaves it as it was; with `Append` counted, `Push` then `Append` nets zero |
| Bytecode.AppendLetSlot | src/ketos/compile.rs:1049-1064 | As written, in `(let ((v (append a b))) v)` at depth `d` the binding `v` is named at slot `d + 1`, while the value is pushed into slot `d`; with `Append` counted both are `d` |
| Bytecode.StackEffect | src/ketos/compile.rs:897-927 | Only `Push` raises the count of stack values, by one; every other instruction lowers it or leaves it. `Append`, `Eq` and `NotEq` each lower it by one |
| Bytecode.StackEffectAsWritten | src/ketos/compile.rs:897-927 | The adjustment as `push_instruction` makes it agrees with `StackEffect` on every instruction except `Append`, where it is one higher |
| Bytecode.Pushes | src/ketos/compile.rs:451-454 | The argument pushes of a call: exactly `n` `Push` instructions |
| Bytecode.NetEffectAppend | src/ketos/compile.rs:897-927 | The depth change of consecutive instructions is the sum of their changes |
| Bytecode.PushesSplit | src/ketos/compile.rs:451-454 | `n` pushes are `n - 1` pushes followed by one more |
| Bytecode.PushesEffect | src/ketos/compile.rs:451-454 | `n` pushes raise the depth by exactly `n` |
| Bytecode.CallSequenceBalanced | src/ketos/compile.rs:456-486 | Pushing a function and `n` arguments and then `Call(n)` leaves the depth unchanged |
| Bytecode.BlockOkGrows | src/ketos/compile.rs:724-733 | A block that is well formed stays well formed when blocks, constants or captures are added |
| Bytecode.BlocksOkTargets | src/ketos/compile.rs:231-297 | Well-formed blocks jump and link only within the block list, which is what `write_jumps` walks |
| Bytecode.BlocksOkGrows | src/ketos/compile.rs:724-733 | All blocks stay well formed when constants or captures are added |
| Bytecode.AppendedOk | src/ketos/compile.rs:897-927 | Appending an instruction whose references exist keeps every block well formed |
| Bytecode.NewBlockOk | src/ketos/compile.rs:878-882 | Adding an empty block keeps every block well formed |
| Bytecode.RelinkOk | src/ketos/compile.rs:884-891 | Giving the current block a new jump or `next` link to an existing block keeps every block well formed |
| Values.Size | src/ketos/compile.rs:407-498 | Every value has a positive size, the measure that bounds the recursion of `compile_value` |
| Values.ListSize | src/ketos/compile.rs:407-498 | Every argument list has a positive size |
| Values.ElementSmaller | src/ketos/compile.rs:417-487 | Each element of a list is smaller than the list |
| Values.SuffixSmaller | src/ketos/compile.rs:417-487 | A proper suffix of an argument list is smaller than the list |
| Values.ItemOf | src/ketos/compile.rs:417-487 | An element of a list value is smaller than the list and is well formed when the list is |
| Values.PairSmaller | src/ketos/compile.rs:1044-1079 | The two arguments of a two-argument form are together smaller than the form |
| Values.IsConstant | src/ketos/compile.rs:949-962 | A value is constant exactly when it is not a name, a list, a quasiquote, a comma, a struct definition or a lambda |
| Values.Unquoted | src/ketos/compile.rs:818-835 | An unquoted value is unchanged; a quoted one loses exactly one quote level |
| Values.QuoteOnce | src/ketos/compile.rs:735-742 | Quoting once more gives a constant whose unquoting is the original value, one quote level deeper: the inverse of `Unquoted` |
| Values.TypeName | src/ketos/compile.rs:446-449 | The type name reported for an invalid call head is "object" exactly for quote, quasiquote and comma values |
| Errors.GetName | src/ketos/compile.rs:1595-1600 | A value yields a name exactly when it is a name, and otherwise fails with "expected name" |
| Names.IsSystemOperator | src/ketos/compile.rs:980-1003 | A name is a system operator exactly when it is one of the fourteen operator names `apply` to `use`, the entries of `SYSTEM_OPERATORS` |
| Scopes.NextImport | src/ketos/compile.rs:1573-1593 | Reads the first item of an import list. A name `n` gives source `n` and destination `n` and uses one element. A keyword `:dest` followed by a name `src` gives source `src` and destination `dest` and uses two. A keyword without a name after it fails with "expected name following keyword"; any other value fails with "expected name or keyword" |
| Scopes.ImportPairs | src/ketos/compile.rs:1573-1593 | `each_import` alone: a failure is a syntax error, and every pair read names a source that is written as a name in the list, with no more pairs than elements |
| Scopes.ImportPairsRoundTrip | src/ketos/compile.rs:1573-1593 | Reading back an import list written from any sequence of (source, destination) pairs gives exactly those pairs |
| Scopes.Import | src/ketos/compile.rs:1525-1593 | Importing keeps every name already in the table, though an imported destination may replace its value. A name missing from the module fails with `ImportError` naming it and the module, and a name it does not export fails with `PrivacyError` |
| Scopes.ImportMeaning | src/ketos/compile.rs:1549-1571 | An import list succeeds exactly when it parses and every imported name exists in the module and is exported. On success the table is the old one with those entries copied in under their local names. No key appears that was not already there or named in the list |
| Scopes.ImportAll | src/ketos/compile.rs:1489-1499 | `:all` adds exactly the module's exported entries with their values, and leaves every other entry as it was |
| Frames.VisibleWithinPrefix | src/ketos/compile.rs:800-815 | The search over the `n` outermost compilers does not depend on compilers nested deeper |
| Frames.OnSomeStack | src/ketos/compile.rs:800-815 | The as-written search finds a name exactly when it is in the names of all enclosing stacks joined |
| Frames.FlattenHolds | src/ketos/compile.rs:800-815 | A name is among the joined stack names exactly when some enclosing stack holds it |
| Frames.Visible | src/ketos/compile.rs:800-815 | The corrected search finds only names the as-written search finds |
| Frames.LoadsAsWritten | src/ketos/compile.rs:774-795 | As written, a compiler loads its own name only when its own stack holds it, whatever the enclosing stacks hold |
| Frames.Loads | src/ketos/compile.rs:774-795 | What the corrected search loads, the as-written one loads too |
| Frames.CaptureNotLoadable | src/ketos/compile.rs:757-815 | As written, a name can be found on an enclosing stack while the directly enclosing compiler cannot load it, because that name is its own name (the failing assertion in `load_lambda`) |
| Frames.VisibleLoadable | src/ketos/compile.rs:757-795 | With the corrected search, a name visible from a nested lambda can always be loaded by its enclosing compiler |
| Frames.VisibleMeaning | src/ketos/compile.rs:800-815 | A name is visible exactly when some enclosing stack holds it and no compiler between that stack and here is named after it |
| Frames.VisibleWithinMeaning | src/ketos/compile.rs:800-815 | The same characterisation for the `n` outermost compilers |
| Params.ParseParams | src/ketos/compile.rs:1612-1718 | A parameter list is refused only with a syntax error or `DuplicateParameter` |
| Params.ParseFrom | src/ketos/compile.rs:1627-1712 | The parse of the rest of the list, element by element, is refused only with a syntax error or `DuplicateParameter` |
| Params.Add | src/ketos/compile.rs:1686-1698 | A parameter is refused with `DuplicateParameter` exactly when its name is already a positional or keyword parameter; otherwise it is appended to the keyword parameters after `:key` and to the positional ones before |
| Params.Finish | src/ketos/compile.rs:1700-1712 | The finishing checks pass exactly when `:key` has a keyword parameter and `:optional` an optional one; the required count is the count at `:optional` when it occurred and all positional parameters otherwise |
| Params.ReadParam | src/ketos/compile.rs:1627-1684 | An element is a parameter exactly when it is a name or a `(name default)` pair, and the parameter read is the one it declares |
| Params.ReadParams | src/ketos/compile.rs:1627-1684 | The loop over a parameter list computes exactly the parse `ParseParams` |
| Params.ReadMarker | src/ketos/compile.rs:1631-1674 | `:key` or `:optional` is accepted exactly when neither was read before; it then sets its flag and fixes the required count at the positional parameters read so far. A second `:key` fails with "duplicate `:key`", a second `:optional` with "duplicate `:optional`", one after the other with "`:key` and `:optional` are mutually exclusive", and any other keyword with "expected :key, :optional, or :rest" |
| Params.ReadRest | src/ketos/compile.rs:1653-1672 | `:rest` succeeds only without `:key` and with exactly one name after it, which becomes the rest parameter. Otherwise it fails with "`:key` and `:rest` are mutually exclusive", "expected name after `:rest`", "expected name" or "extraneous token after `:rest` argument" |
| Params.Before | src/ketos/compile.rs:1631-1652 | The elements before the first occurrence of a marker are a prefix of the list without it |
| Params.BeforeSnoc | src/ketos/compile.rs:1631-1652 | One more element extends the part before a marker unless the marker was already read or is that element |
| Params.DeclaredSnoc | src/ketos/compile.rs:1627-1684 | One more element adds its declaration, if it is one |
| Params.DeclaredAppend | src/ketos/compile.rs:1627-1684 | The declarations of joined lists are their declarations joined |
| Params.DeclaredCons | src/ketos/compile.rs:1627-1684 | A first element adds its declaration, if it is one, at the front |
| Params.DeclaredLength | src/ketos/compile.rs:1627-1684 | A list made only of declarations declares one parameter per element |
| Params.DeclaresRead | src/ketos/compile.rs:1627-1684 | An element that declares a parameter is read as exactly that parameter |
| Params.PrefixGrows | src/ketos/compile.rs:1627-1684 | Each step of the loop extends the prefix it has read by one element |
| Params.NamesOfAppend | src/ketos/compile.rs:1686-1698 | The names of two parameter lists joined are their names joined |
| Params.DistinctSnoc | src/ketos/compile.rs:1686-1698 | Appending a new name keeps the names distinct |
| Params.StartOk | src/ketos/compile.rs:1613-1624 | The parse invariant holds before the first element |
| Params.AddOk | src/ketos/compile.rs:1627-1697 | Accepting a declared parameter preserves the parse invariant |
| Params.AddNamesOk | src/ketos/compile.rs:1686-1698 | An accepted parameter keeps the names distinct and each declared in the list |
| Params.AddDeclaredOk | src/ketos/compile.rs:1686-1698 | An accepted parameter extends the declarations read, and those read before each marker |
| Params.AddFlagsOk | src/ketos/compile.rs:1686-1698 | Reading a parameter leaves the marker flags and the markers read as they were |
| Params.MarkerOk | src/ketos/compile.rs:1631-1652 | Accepting a marker preserves the parse invariant |
| Params.MarkerDeclaredOk | src/ketos/compile.rs:1631-1652 | A marker declares nothing, and what was declared before it is all declared before it |
| Params.MarkerFlagsOk | src/ketos/compile.rs:1631-1652 | An accepted marker is the first marker of the list and sets its flag |
| Params.MarkerStep | src/ketos/compile.rs:1631-1652 | After a marker the parse fails with the marker's error or goes on from the state the marker leaves |
| Params.ParamStep | src/ketos/compile.rs:1686-1698 | After a declaration the parse fails on a name already declared and otherwise goes on from the state with it added |
| Params.AddDistinct | src/ketos/compile.rs:1686-1698 | The duplicate check keeps all positional and keyword names distinct |
| Params.DistinctInsert | src/ketos/compile.rs:1686-1698 | Inserting a new name between two parts keeps the names distinct |
| Params.FinishOk | src/ketos/compile.rs:1700-1712 | The finishing checks produce a specification that meets `SpecCore`: the properties of `SpecOk` other than the one about `:rest` |
| Params.FinishBody | src/ketos/compile.rs:1653-1712 | Where the parse finishes, the body of the list is what was read, and no marker occurs after it |
| Params.ParseFromOk | src/ketos/compile.rs:1627-1712 | Any successful parse from a state meeting the invariant yields a specification meeting `SpecCore` |
| Params.ParseRestStep | src/ketos/compile.rs:1653-1672 | A parse that succeeds at `:rest` ends there with one name after it, and without `:key` |
| Params.ParseMarkerStep | src/ketos/compile.rs:1631-1652 | A parse that succeeds past a marker goes on from the state the marker leaves |
| Params.ParseParamStep | src/ketos/compile.rs:1627-1698 | A parse that succeeds past a parameter goes on from the state with it added |
| Params.ParseParamsOk | src/ketos/compile.rs:1612-1718 | A successful parameter parse has distinct names, each declared in the list. The positional parameters are the declarations before `:key`, and the keyword parameters are those after it. The required count is the number of declarations before `:optional` when it occurs, and all positional parameters otherwise. Each marker occurs at most once, and never both. A list holding `:rest` has a rest parameter, the name after a final `:rest`, and no keyword parameters |
| Params.RestFrom | src/ketos/compile.rs:1653-1672 | A parse that has met no `:rest` yet and succeeds has a rest parameter whenever the list holds `:rest`, because reading stops at the first `:rest` |
| Params.RestAtEnd | src/ketos/compile.rs:1653-1672 | An accepted list holding `:rest` ends with `:rest name`; `name` is its rest parameter, and the list has no `:key` and no keyword parameters |
| Params.DefaultsSmaller | src/ketos/compile.rs:744-755 | A parameter's default value is smaller than the parameter list, so compiling it terminates |
| Params.SpecDefaults | src/ketos/compile.rs:744-755 | Every default of an accepted list, positional or keyword, is smaller than the list and well formed when it is |
| Params.DeclarationList | src/ketos/compile.rs:1612-1718 | A list made only of names and `(name default)` pairs is accepted exactly when its names are distinct, and then declares them all, in order, as required positional parameters. Otherwise it fails with `DuplicateParameter` of a name declared twice |
| Params.MarkedList | src/ketos/compile.rs:1612-1718 | A list of declarations around one `:key` or `:optional`: a name declared twice, before or after the marker, fails with `DuplicateParameter` of that name; a marker with nothing after it fails with its "expected arguments after" message; otherwise the declarations before the marker are the required ones, and those after it are the keyword parameters for `:key` and optional positional parameters for `:optional` |
| Params.MarkedSplit | src/ketos/compile.rs:1612-1718 | The declarations before the marker are read first: a repeated name among them fails there, and otherwise the parse goes on after the marker |
| Params.MarkedDeclare | src/ketos/compile.rs:1612-1718 | Around its marker, a marked list holds only declarations |
| Params.AfterMarker | src/ketos/compile.rs:1627-1712 | After the marker, the declarations are read and the list ends, with the outcomes `MarkedList` states |
| Params.DeclsRun | src/ketos/compile.rs:1627-1698 | A run of declarations is read one by one: with names distinct from those already declared it extends the state by them, and otherwise it fails with `DuplicateParameter` of a repeated name |
| Params.DeclsRepeat | src/ketos/compile.rs:1686-1698 | A run whose first name is already declared fails on it |
| Params.DeclsFresh | src/ketos/compile.rs:1686-1698 | A run whose first name is fresh is read as that name followed by the rest of the run |
| Params.RunNames | src/ketos/compile.rs:1627-1684 | The names of a run of declarations are its first name followed by the others |
| Params.AddFresh | src/ketos/compile.rs:1686-1698 | A fresh name is accepted and added where the parser puts new parameters |
| Params.RepeatedAfter | src/ketos/compile.rs:1686-1698 | A name added after an earlier occurrence of itself is repeated, so the names are not distinct |
| Params.RepeatedPrefix | src/ketos/compile.rs:1686-1698 | A name repeated in a prefix is repeated in the whole list |
| Params.EndOfList | src/ketos/compile.rs:1700-1712 | At the end of the list the parse is the finishing checks |
| Params.DuplicateDeclared | src/ketos/compile.rs:1686-1698 | A parameter list is refused with `DuplicateParameter` only for a name that two elements of the list declare |
| Params.DuplicateFrom | src/ketos/compile.rs:1627-1698 | From a state meeting the parse invariant, a `DuplicateParameter` failure names a name declared twice in the list |
| Params.DuplicateAfterMarker | src/ketos/compile.rs:1631-1652 | The same after a marker |
| Params.DuplicateAfterParam | src/ketos/compile.rs:1686-1698 | The same after a declaration |
| Params.DuplicateHere | src/ketos/compile.rs:1686-1698 | A parameter refused as a duplicate repeats a name declared earlier in the list |
| Layout.SumSizesAppend | src/ketos/compile.rs:944-947 | The size of joined block lists is the sum of their sizes |
| Layout.SumSizesSnoc | src/ketos/compile.rs:944-947 | Adding a block adds its size |
| Layout.BlockWithinSum | src/ketos/compile.rs:944-947 | The sum of the long sizes bounds the long size of every single block |
| Layout.EstimateSize | src/ketos/compile.rs:944-947 | The estimate is positive and exceeds the long size of every block |
| Layout.BlockReturnsMonotone | src/ketos/compile.rs:929-942 | Once `block_returns` finds that control reaches the end, following more links does not change the answer |
| Layout.BusySuccessorDoesNotReturn | src/ketos/compile.rs:929-942 | A block whose next block does real work, and which does not jump unconditionally to a mostly-empty block, does not return |
| Layout.Walk | src/ketos/compile.rs:929-942 | The blocks the loop of `block_returns` moves through: no more than the links allowed, each an existing block |
| Layout.BlockReturnsChain | src/ketos/compile.rs:929-942 | The partner of `block_returns`: it answers yes exactly when the blocks its loop moves through form a chain of mostly-empty blocks, each entered from the one before by an unconditional jump or by falling through, ending in a block with no next block |
| Layout.WalkStep | src/ketos/compile.rs:929-942 | A walk that moves on goes on from the first block it reaches |
| Layout.WalkLength | src/ketos/compile.rs:929-942 | A walk that returns needs no more links than it follows |
| Layout.WalkStable | src/ketos/compile.rs:929-942 | Once a walk returns, more links do not change it |
| Layout.WalkSuffix | src/ketos/compile.rs:929-942 | Past any block of the walk, the walk goes on from that block |
| Layout.ReturnsSuffix | src/ketos/compile.rs:929-942 | A walk that returns still returns from each block it reaches, with the links left |
| Layout.WalkNoRepeats | src/ketos/compile.rs:929-942 | A walk that returns never visits a block twice |
| Layout.ElementsCount | src/ketos/compile.rs:929-942 | A walk without repeats over `n` blocks has as many distinct blocks as steps, all below `n` |
| Layout.ElementsIn | src/ketos/compile.rs:929-942 | Each distinct block of a walk is one of its steps |
| Layout.BlockReturnsEnough | src/ketos/compile.rs:929-942 | Following at most as many links as there are blocks decides every block whose walk returns at all, so only a cycle of links, where the source loops for ever, can answer no where it would not |
| Layout.IndicesMeaning | src/ketos/compile.rs:245-286 | A block is among the visited blocks exactly when the walk visited it |
| Layout.CondTargetsMeaning | src/ketos/compile.rs:245-286 | A block must stay live exactly when some visited block jumps to it conditionally |
| Layout.Erased | src/ketos/compile.rs:245-286 | Replacing visited blocks by empty blocks keeps the length and keeps every jump and link in range |
| Layout.ErasedIs | src/ketos/compile.rs:245-286 | A work list whose visited blocks are emptied and whose other blocks are unchanged is the erased list |
| Layout.KeptIndices | src/ketos/compile.rs:245-286 | There is one original block number per kept block |
| Layout.TraceOkEach | src/ketos/compile.rs:245-286 | Every step of a correct walk is a correct visit |
| Layout.LinkedEach | src/ketos/compile.rs:245-286 | In the walk, each visited block's `next` link leads to the block visited after it |
| Layout.LinkedSnoc | src/ketos/compile.rs:245-286 | Following a block's `next` link extends a linked walk |
| Layout.CardBelow | src/ketos/compile.rs:245-286 | A set of block numbers below `n` has at most `n` elements, which bounds the walk |
| Layout.CardAddOne | src/ketos/compile.rs:245-286 | Visiting a new block adds exactly one to the visited set |
| Layout.AppendPrefixes | src/ketos/compile.rs:245-286 | One more visit adds its block to the visited set, its conditional target to the live set, and its block to the kept blocks when it is kept |
| Layout.OffsetsExtend | src/ketos/compile.rs:268-285 | Recording a kept block at the running size keeps every block's offset equal to the total size of the kept blocks before it |
| Layout.OffsetsOf | src/ketos/compile.rs:245-286 | The offsets table has one entry per block |
| Layout.OffsetsOfSnoc | src/ketos/compile.rs:268-285 | One more visit sets the offset of its block, when kept, to the size written so far |
| Layout.OffsetsOfOk | src/ketos/compile.rs:245-286 | The offsets recorded by a walk give each kept block the total size of the kept blocks before it, and give dropped blocks none |
| Layout.StepOk | src/ketos/compile.rs:245-286 | A visit that takes the block, decides whether it returns, and keeps it unless it returns, is mostly empty and is not a conditional target, extends a correct walk |
| Layout.TakeBlock | src/ketos/compile.rs:245-286 | Taking block `i` empties it in the work list and adds its conditional target to the live set. It decides `block_returns` on the remaining blocks and keeps the block unless it returns, is mostly empty and need not stay live. A kept block that returns gets a `Return` in place of its jump |
| Layout.LayoutInvInit | src/ketos/compile.rs:231-244 | The walk's invariant holds before the first block |
| Layout.TurnOk | src/ketos/compile.rs:245-286 | One turn of the walk preserves its invariant |
| Layout.TurnKept | src/ketos/compile.rs:268-285 | In one turn, the kept blocks, the running size and the offsets grow as the kept-or-dropped decision says |
| Layout.Turn | src/ketos/compile.rs:245-286 | One turn of the walk visits block `i` as it then stands in the work list and preserves the invariant |
| Layout.LayOut | src/ketos/compile.rs:245-286 | The walk from block 0 follows the `next` links to the end. The new blocks are the kept blocks in order, their total size is counted, and each kept block's offset is the size before it |
| Layout.RewriteJumps | src/ketos/compile.rs:290-294 | The rewrite succeeds exactly when every jump leads to a block that has an offset, and then rewrites each block; otherwise it panics with "jump to dead block" |
| Layout.WriteJumps | src/ketos/compile.rs:231-297 | The short encoding is chosen exactly when the estimate fits a short operand. The walk is correct and its offsets are the kept blocks' positions. The result is the kept blocks, each jump rewritten to an offset, with their total size. It is an error exactly when a kept jump leads to a dropped block |
| Compile.LastSlotMeaning | src/ketos/compile.rs:774-782 | The stack search finds a name exactly when it is on the stack, and returns the slot of its last (innermost) binding |
| Compile.RenamedStep | src/ketos/compile.rs:362-385 | Renaming one more slot extends the renamed prefix by one parameter |
| Compile.Compiler.constructor | src/ketos/compile.rs:201-215 | A new compiler has one empty block, no constants, an empty stack at depth zero, no captures and no macro nesting |
| Compile.Compiler.PushInstruction | src/ketos/compile.rs:897-927 | Appends the instruction to the current block and changes the depth by the instruction's stack effect, `Append` included |
| Compile.Compiler.PushVar | src/ketos/compile.rs:851-853 | Names the current depth's slot |
| Compile.Compiler.PopVars | src/ketos/compile.rs:857-860 | Drops the last `n` named slots and leaves the depth alone |
| Compile.Compiler.NewBlock | src/ketos/compile.rs:878-882 | Adds an empty block and returns its number |
| Compile.Compiler.UseBlock | src/ketos/compile.rs:884-886 | Makes an existing block current |
| Compile.Compiler.UseNext | src/ketos/compile.rs:888-891 | Links the current block to `b` and makes `b` current |
| Compile.Compiler.AddConst | src/ketos/compile.rs:724-733 | Returns the first index holding the value, appending it only when it is not yet in the pool |
| Compile.Compiler.AddConstValue | src/ketos/compile.rs:735-742 | The constant stored is the value with one quote level removed |
| Compile.Compiler.FindOnStack | src/ketos/compile.rs:775-781 | The search computes the innermost slot of the name |
| Compile.Compiler.SearchOuter | src/ketos/compile.rs:800-815 | Corrected half of the compile.rs:757-815 finding: the search through enclosing compilers finds exactly the `Visible` names, stopping at a compiler named after the name, where the source searches every enclosing stack |
| Compile.Compiler.ClosureValue | src/ketos/compile.rs:800-815 | Corrected half of the compile.rs:757-815 finding. Finds a name exactly when it is already captured or is visible. A newly found name is appended to the captures and its index returned; otherwise the captures are unchanged |
| Compile.Compiler.LoadLocalName | src/ketos/compile.rs:774-795 | Corrected half of the compile.rs:757-815 finding. Loads a name exactly when it is on the stack, or is not this lambda's own name and is captured or visible. It emits `Load` of the innermost slot or `LoadC` of its capture, and emits nothing when not found |
| Compile.Compiler.LoadQuotedValue | src/ketos/compile.rs:837-847 | Unit and booleans become their own instructions; every other value is loaded from the constant pool |
| Compile.Compiler.LoadConstValue | src/ketos/compile.rs:818-835 | The value loaded is the constant with one quote level removed (`Unquoted`). Unit, true and false are loaded by `Unit`, `True` and `False` without touching the pool; any other value by `Const(c)` where the pool holds that value at `c`. The stack stays balanced |
| Compile.Compiler.WriteCallSys | src/ketos/compile.rs:862-872 | A fixed-arity system function becomes `CallSys`, any other `CallSysArgs(n)`; either consumes the `n` arguments |
| Compile.Compiler.LoadLambda | src/ketos/compile.rs:757-770 | Loading a lambda whose captures are visible from here always succeeds and keeps the stack balanced (the corrected `load_lambda`) |
| Compile.Compiler.ExpandMacro | src/ketos/compile.rs:504-513 | Beyond the nesting limit of 100 the expansion fails with `MacroRecursionExceeded`; below it, it is the macro's result |
| Compile.Compiler.CompileValue | src/ketos/compile.rs:407-498 | Compiling any expression keeps the compiler valid and, on success, balanced; a comma outside a quasiquote is `UnbalancedComma` |
| Compile.Compiler.CompileCall | src/ketos/compile.rs:417-487 | A call is balanced on success; a head that is neither a name nor a list is an invalid call expression naming its type |
| Compile.Compiler.CallHead | src/ketos/compile.rs:418-449 | The head either compiles the whole call (balanced) or leaves the function pushed or to be called by name |
| Compile.Compiler.CallHeadName | src/ketos/compile.rs:418-449 | A named head is a macro, an operator, an inlined call or a name, in that order |
| Compile.Compiler.CallNamed | src/ketos/compile.rs:456-486 | The lambda's own name becomes a self call. A system function of the wrong arity is an `ArityError`. Any other name is called through its constant. The arguments are consumed |
| Compile.Compiler.CompileMacroCall | src/ketos/compile.rs:429-435 | Macro calls nested past the limit fail with `MacroRecursionExceeded`; a compiled expansion is balanced |
| Compile.Compiler.CompileOperator | src/ketos/compile.rs:515-528 | An operator given a wrong argument count fails with `ArityError` and changes nothing |
| Compile.Compiler.CompileQuasiquote | src/ketos/compile.rs:530-568 | Commas deeper than the quasiquote are `UnbalancedComma`, a splice at the top level is `InvalidCommaAt`, and success is balanced |
| Compile.Compiler.QuasiquoteNested | src/ketos/compile.rs:536-562 | A nested comma, quote or quasiquote is compiled at its adjusted depth and rewrapped, balanced |
| Compile.Compiler.CompileQuasiquoteList | src/ketos/compile.rs:570-625 | A quasiquoted list leaves exactly one value, balanced |
| Compile.Compiler.QuasiquoteItem | src/ketos/compile.rs:576-606 | An item either starts a new spliced list or adds one pending item, keeping the count of pending values equal to what is on the stack |
| Compile.Compiler.QuasiquotePlain | src/ketos/compile.rs:602-606 | A plain item leaves exactly one more value on the stack |
| Compile.Compiler.Splice | src/ketos/compile.rs:580-601 | A splice closes any pending items into a list and adds the spliced list, keeping the count of pending values in step with the stack |
| Compile.Compiler.InlineCall | src/ketos/compile.rs:627-722 | A call is inlined exactly for the functions and argument counts of `inline_call`; otherwise nothing changes. An inlined call is balanced |
| Compile.Compiler.CompileAppend | src/ketos/compile.rs:681-686 | The inlined `append` compiles its two operands through `CompileBinary`, and is balanced once `Append` consumes its first operand (the corrected half of the compile.rs:897-927 finding) |
| Compile.Compiler.CompileBinary | src/ketos/compile.rs:633-686 | The two operands of an inlined `append`, `=` or `/=`: the first compiled and pushed, then the second and the operator; balanced on success |
| Compile.Compiler.CompileOperand | src/ketos/compile.rs:633-686 | The second operand and the operator, which takes the pushed first operand off the stack: on success the depth is one lower and the named stack unchanged |
| Compile.Compiler.CompileList | src/ketos/compile.rs:703-714 | The inlined `list` is balanced |
| Compile.Compiler.CompileUnary | src/ketos/compile.rs:687-702 | The inlined `null`, `not`, `first`, `tail`, `init` and `last` are balanced |
| Compile.Compiler.CompileEquality | src/ketos/compile.rs:633-670 | The inlined `=` and `/=` are balanced |
| Compile.Compiler.CompareWithConst | src/ketos/compile.rs:633-670 | Comparison with a constant operand is balanced |
| Compile.Compiler.PushAll | src/ketos/compile.rs:451-454 | Pushing the first `n` arguments raises the depth by exactly `n` |
| Compile.Compiler.OpApply | src/ketos/compile.rs:1014-1026 | `apply` is balanced |
| Compile.Compiler.OpDo | src/ketos/compile.rs:1030-1035 | `do` is balanced |
| Compile.Compiler.OpLet | src/ketos/compile.rs:1044-1079 | `let` is balanced; bindings that are neither a list nor unit are refused |
| Compile.Compiler.LetBody | src/ketos/compile.rs:1068-1078 | The body is compiled and the bindings are skipped and popped |
| Compile.Compiler.BindAll | src/ketos/compile.rs:1049-1064 | Each binding names one new slot, in order, at successive depths |
| Compile.Compiler.BindOne | src/ketos/compile.rs:1049-1064 | One binding names the slot of its value; a binding that is not a pair is refused |
| Compile.Compiler.OpDefine | src/ketos/compile.rs:1088-1112 | `define` is balanced, and a name that may not be defined is `CannotDefine` |
| Compile.Compiler.DefineFunction | src/ketos/compile.rs:1097-1109 | Defining a function is balanced, and a name that may not be defined is `CannotDefine` |
| Compile.Compiler.OpMacro | src/ketos/compile.rs:1115-1139 | `macro` is balanced and on success adds the macro to the scope; a non-list head is refused |
| Compile.Compiler.AddMacro | src/ketos/compile.rs:1115-1139 | On success the macro is in the scope |
| Compile.Compiler.OpStruct | src/ketos/compile.rs:1147-1178 | On success the struct definition read from the field list is among the constants, and the form is balanced |
| Compile.Compiler.OpIf | src/ketos/compile.rs:1188-1208 | `if` is balanced |
| Compile.Compiler.IfBranches | src/ketos/compile.rs:1188-1208 | Both branches are compiled balanced |
| Compile.Compiler.CompileElse | src/ketos/compile.rs:1200-1203 | The else expression is compiled balanced, and a missing one is `Unit`, which always succeeds |
| Compile.Compiler.ShortCircuit | src/ketos/compile.rs:1213-1260 | `and` and `or` are balanced |
| Compile.Compiler.Branch | src/ketos/compile.rs:1290-1338 | A branch body is compiled balanced into its own block |
| Compile.Compiler.ChainBranches | src/ketos/compile.rs:1341-1351 | Linking the branches to the final block is balanced and ends in the final block |
| Compile.Compiler.OpCase | src/ketos/compile.rs:1278-1353 | `case` is balanced |
| Compile.Compiler.CaseBranch | src/ketos/compile.rs:1290-1338 | A branch that is not a pair is refused, and `else` is recognised exactly by its name |
| Compile.Compiler.EndBranches | src/ketos/compile.rs:1341-1351 | Closing the branches is balanced and ends in the final block |
| Compile.Compiler.JumpOnPatterns | src/ketos/compile.rs:1301-1320 | The pattern tests are balanced |
| Compile.Compiler.OpCond | src/ketos/compile.rs:1369-1423 | `cond` is balanced |
| Compile.Compiler.CondBranch | src/ketos/compile.rs:1380-1408 | A branch that is not a pair is refused, and `else` is recognised exactly by its name |
| Compile.Compiler.OpLambda | src/ketos/compile.rs:1432-1445 | `lambda` is balanced |
| Compile.Compiler.LoadNewLambda | src/ketos/compile.rs:1432-1445 | A compiled lambda is loaded balanced |
| Compile.Compiler.OpExport | src/ketos/compile.rs:1452-1474 | A second export list is `DuplicateExports`; on success the exports are exactly the names listed |
| Compile.Compiler.UseMacros | src/ketos/compile.rs:1501-1519 | After the values, anything but `:macro` is refused, and so is `:macro` without names |
| Compile.Compiler.OpUse | src/ketos/compile.rs:1484-1523 | `use` is balanced; a module that is not a name is refused |
| Compile.Compiler.BranchIfUnbound | src/ketos/compile.rs:744-755 | The default-value code is balanced |
| Compile.Compiler.MakeLambda | src/ketos/compile.rs:1612-1718 | A malformed parameter list fails with its parse error; on success every capture is visible from the lambda's position |
| Compile.Compiler.CompileLambda | src/ketos/compile.rs:313-405 | A compiled lambda records its name, its counts of parameters and required parameters, its keyword names and its flags, and captures distinct visible names |
| Compile.Compiler.BindParams | src/ketos/compile.rs:362-385 | The parameter slots take the parameter names, in order |
| Compile.Compiler.BindNext | src/ketos/compile.rs:362-385 | Binding one more parameter names one more slot |
| Compile.Compiler.BindParam | src/ketos/compile.rs:362-385 | A parameter names its slot; an optional one without a default gets `UnboundToUnit` |
| Compile.Compiler.AssembleCode | src/ketos/compile.rs:217-229 | Assembly fails only on a jump to a dropped block |
| Compile.CompileExpression | src/ketos/compile.rs:299-311 | A top-level expression compiles to an unnamed code object without parameters or flags |
| Compile.ImportSpec | src/ketos/compile.rs:1484-1523 | `:all` imports every exported entry, unit imports nothing, and a list imports the names it lists; anything else is refused with the form's message |
| Compile.Rewrap | src/ketos/compile.rs:547-562 | A nested quasiquote form is rewrapped by an instruction that leaves the depth as it is; only a single quasiquote at the top is not rewrapped |
| Compile.UnaryInstruction | src/ketos/compile.rs:687-702 | Exactly `null`, `not`, `first`, `tail`, `init` and `last` have an instruction of their own, and it leaves the depth as it is |
| Compile.OperatorArity | src/ketos/compile.rs:980-1003 | No system operator takes zero arguments |
| Compile.StructFieldsAccepts | src/ketos/compile.rs:1152-1169 | A field list is accepted exactly when every element is a `(name type)` pair of names |
| Compile.StructFieldsNames | src/ketos/compile.rs:1152-1169 | The fields are exactly the names declared in the list |
| Compile.StructFieldsTypes | src/ketos/compile.rs:1152-1169 | Each field has the type of its last declaration |
| Compile.LastDeclPrefix | src/ketos/compile.rs:1152-1169 | A last declaration stays last in the list without its final element |
| Compile.StructFieldsStops | src/ketos/compile.rs:1152-1169 | The first malformed field decides the error |
| Compile.StructFields | src/ketos/compile.rs:1152-1169 | A field list fails only with "expected list of 2 elements" or "expected name" |
| Compile.StructFieldsStep | src/ketos/compile.rs:1152-1169 | One more field is read after the ones before it: the earlier error stands, a malformed field fails, and a good one updates the map |
| Compile.StructSpec | src/ketos/compile.rs:1147-1169 | Unit gives no fields; a list is accepted exactly when every element is a `(name type)` pair; any other value fails with "expected list" |
| Compile.Compiler.SetNext | src/ketos/compile.rs:888-891 | Links the current block to `b` |
| Compile.Compiler.JumpTo | src/ketos/compile.rs:1188-1208 | Ends the current block with a jump to `b` |
| Compile.ReadStructSpec | src/ketos/compile.rs:1147-1169 | The loop computes the field map `StructSpec` |
| Compile.ReadFields | src/ketos/compile.rs:1152-1169 | The loop computes the field map `StructFields` |
| Modules.CheckExports | src/ketos/module.rs:340-357 | A module without an export list fails with `MissingExport`. With one, it passes exactly when every exported name is defined, and otherwise reports an exported name that is missing |
| Modules.ModuleBuilder.constructor | src/ketos/module.rs:54-61 | A builder keeps its module name and scope |
| Modules.ModuleBuilder.AddValue | src/ketos/module.rs:76-79 | Defines one value and changes nothing else |
| Modules.ModuleBuilder.Finish | src/ketos/module.rs:89-99 | Exports every defined value; the module it returns passes the export check |
| Modules.GetLoader | src/ketos/module.rs:152-159 | There is a built-in module exactly for `code`, `math` and `random`, and it is the one of that name |
| Modules.GetLoaderFinds | src/ketos/module.rs:152-159 | Every built-in module is found by its own name |
| Modules.LoadBuiltinModule | src/ketos/module.rs:161-168 | Loads exactly the built-in names, and fails with `ModuleError` otherwise |
| Modules.ModulePaths | src/ketos/module.rs:205-212 | A module name with a dot or a path separator is `InvalidModuleName`; otherwise its files are `<name>.kts` and `<name>.ktsc` |
| Modules.HasSeparator | src/ketos/module.rs:207 | A name text is refused exactly when it contains `.`, `/` or `\` |
| Modules.Stem | src/ketos/module.rs:205-242 | The stem of a path is a prefix of it |
| Modules.StemOfDotted | src/ketos/module.rs:205-242 | The stem of `<name>.<ext>`, for a name without separators, is the name |
| Modules.ModulePathsStem | src/ketos/module.rs:205-242 | Both module files of a valid name have that name as their stem |
| Modules.LaterByNanos | src/ketos/module.rs:266-270 | Comparing seconds and then nanoseconds is comparing total nanoseconds |
| Modules.Later | src/ketos/module.rs:266-270 | No time is later than itself, and times with different seconds compare by their seconds |
| Modules.UseCodeFile | src/ketos/module.rs:245-255 | Without a compiled file, the source is used. With only a compiled file, it is used. With both, the compiled file is used exactly when it is younger, and an unreadable time is an I/O error |
| Modules.IsYounger | src/ketos/module.rs:257-264 | The first file is younger exactly when its time is later; an unreadable time is an I/O error on that file |
| Modules.SameTimeUsesSource | src/ketos/module.rs:245-270 | Files with the same time use the source |
| Modules.ModuleRegistry.constructor | src/ketos/module.rs:111-117 | A new registry has no modules cached |
| Modules.ModuleRegistry.GetModule | src/ketos/module.rs:120-133 | The module returned is what the loader gives for the name. A cached name is answered without loading; an uncached name is loaded once and cached only on success |
| Modules.FromBytecode | src/ketos/module.rs:221-233 | Compiled code of the wrong version falls back to the source when there is one; any other result stands |
| Modules.FileModuleLoader.constructor | src/ketos/module.rs:184-188 | A new loader has an empty import chain |
| Modules.FileModuleLoader.GuardImport | src/ketos/module.rs:190-201 | A path already being imported is `ImportCycle`. Otherwise the import runs with the path pushed, and the chain is restored afterwards |
| Modules.FileModuleLoader.LoadModule | src/ketos/module.rs:205-242 | An invalid name is refused. Otherwise the compiled file is used when it is younger (falling back to the source on a version mismatch), then the source file, then a built-in module. An import already in progress is `ImportCycle` and the chain is restored |

## Left out

- Floating-point values, `inf` and `nan` constants: values are a tree without floats in arithmetic; `inline_call`'s `inf`/`nan` cases are recognised but their constants are plain values.
- `is_identical` on constants is modelled as value equality.
- The byte encoding of instructions (bytecode.rs), `OperandOverflow`, and the peephole combining done by `flush_instructions` are not part of this model; block sizes and `is_mostly_empty` are an input (`Layout.Encoding`).
- `Compile.Compiler.AssembleCode`: returns the laid-out blocks rather than their bytes, so it does not state the `assert_eq!` on the total length.
- The interpreter: a macro expansion (`execute_lambda`) is a given function `Env.runMacro`.
- The set of system functions (`get_system_fn`) and `MasterScope::can_define` are inputs of the compiler (`Env.sysFns`, `Env.canDefine`); name.rs is not part of this model, so names are numbers and the standard names are constants.
- Integer widths: stack offsets, constant indices and counts are unbounded naturals. The source's `u32` fields never wrap in the programs the model admits, and its subtraction underflow is excluded by the precondition of `PushInstruction`.
- Compile.Compiler.CompileValue: recursion through macro expansion is bounded by a `fuel` parameter, because an expansion may return any value; running out of fuel fails like a compile error, which the source never does.
- `Rc` sharing of scopes and code objects: the global scope is one object shared by reference; sharing between threads is not modelled.
- scope.rs is not part of this model: its tables are maps, and importing all values imports the exported names.
- `Module::new`, `ModuleBuilder::add_function` and `add_value_with_name`: functions are not modelled as values, and `Module::new` only pairs a name with a scope.
- Modules.CheckExports: which missing name is reported depends on the iteration order of the name set; the model promises only that some missing exported name is reported.
- Modules.ModuleRegistry.GetModule: the loader is a deterministic function of the name, so a second load would give the same result; the source's loaders read files, whose contents may change.
- `read_bytecode_file`, `load_module_from_file` and `run_module_code` read and run files; they are parameters of `LoadModule` (`readCode`, `fromSource`), and the file system is a map from paths to modification times.
- Modules.IsYounger: models the Unix comparison of seconds then nanoseconds; the Windows variant comparing `last_write_time` is not modelled.
- The text of a module name (`NameStore` lookup) is passed alongside its number as `text`.
- The REPL (src/bin/repl.rs) is outside the compiler and the loader.
- Layout.BlockReturns: follows at most as many links as there are blocks. On blocks linked in a cycle of mostly-empty blocks the source loops for ever, while the model answers no and the block is kept; `BlockReturnsEnough` shows the bound changes no other answer.
- Layout.WriteJumps: does not prove that with short operands every offset fits a short operand. Block sizes are an input of the model (`Encoding`), and nothing relates a block's short size to its long size.
- Layout.BlockReturns: has no contract of its own; its meaning is stated by `BlockReturnsChain`, `BusySuccessorDoesNotReturn` and `BlockReturnsEnough`.

## Findings

| source | as written | input that shows it | evidently intended | confidence | as-written member | corrected member |
|---|---|---|---|---|---|---|
| src/ketos/compile.rs:757-815 | `closure_value` captures a name found on any enclosing stack, ignoring that an enclosing lambda's own name is more local; `load_local_name` of that enclosing lambda then refuses its own name, and `assert!(_loaded)` in `load_lambda` fails | `(lambda (g) (define (g) (lambda () g)))` | The outward search stops at a compiler named after the name, so every capture can be loaded by the enclosing compiler | not executed; medium | Frames.CaptureNotLoadable | Frames.VisibleLoadable |
| src/ketos/compile.rs:897-927 | `push_instruction` does not lower `stack_offset` for `Append`, which consumes its first operand like `Eq`; the inlined `append` leaves the offset one too high, so a later `let` binding gets the wrong slot | `(let ((a (append x y))) a)` | `Append` lowers the offset by one, like `Eq` and `NotEq` | not executed; medium | Bytecode.AppendLetSlot | Compile.Compiler.CompileAppend |
