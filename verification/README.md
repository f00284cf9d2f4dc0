# Biron compiler: model and proofs

Biron is a small compiler: lexer, recursive-descent parser, type cache, and a
code generator that turns structured statements into basic blocks, together
with its own allocators and containers. This project models the parts of it
where the reasoning is hardest and proves what they promise. Each group of
modules follows one part of the compiler.

**Statements to basic blocks** (`Ast`, `Machine`, `Source`, `Laws`, `Lower`,
`Frames`, `Simulation`, `Functions`, `Static`, `Codegen`). `Source` gives statements a
structured big-step meaning: blocks, `if`/`else if`/`else`, `for`/`else`,
`break`, `continue`, `return`, `defer`, and short-circuit operators over
effectful operands; `Laws` says which statements mean the same. `Machine` runs basic blocks instruction by instruction, up
to the first terminator of each. `Lower` says which blocks come out, `Codegen`
is the compiler itself, a class with a mutable builder and a scope stack, proved
to produce exactly those blocks. `Functions.Correct` is the main theorem: a
compiled function stops with a result and a trace if and only if the source
does. `Static.WellFormed` is about the graph: blocks appended once, terminated,
branch targets present, phis listing exactly the predecessors of their block.

**Expressions and their printer** (`Syntax`, `Grammar`, `Completeness`,
`Soundness`, `Precedence`, `Printer`, `Parser`). `Soundness.ParsesExactly` says which token
sequences the parser reads as which tree, and `Completeness.Unambiguous` that
there is one tree for them; `Precedence.Grouping` says which operator of two
takes the operand between them. `Printer.RoundTrip` says exactly when parsing a
printed tree gives it back.

**Types in memory** (`Bits`, `Types`, `Layout`, `Memory`, `Stores`, `Unions`,
`Aggregates`, `Constants`). Masked 64-bit layout is shown to compute the least aligned
layout; leaf-by-leaf stores to amount to one write of the whole object with its
padding zeroed; union tags to tell types apart; run-time and compile-time
aggregate initialisers to agree under exact conditions.

**Type generation** (`Typegen`, `Readback`). Typedefs are generated on demand, each once and
after those it names, and names are bound to full expansions whatever the order
of declaration; read back, an expansion is the syntax it came from.

**Constant folding** (`Folding`). Folding works in 128 bits and truncates at the
end; the module says what the operators compute and exactly when that is what wrapping
at every step gives.

**Allocators and containers** (`Pools`, `Allocators`, `Growth`, `Peak`,
`Format`). Bitmap pools and their cache refine a set of live objects; bump
allocators keep live blocks apart; pushing is amortised linear; the lock-free
peak counter is a maximum, of the bytes in use only for one thread; the measuring pass of the formatter measures what
the writing pass writes.

## What the proofs found

Where the code does not do what one would expect, the model follows the code and
a lemma states the case.

- `AstIntExpr::dump` casts `Sint64` literals to `Sint32` (src/biron/ast_expr.cpp:66),
  so printing loses literals of 2^31 and more: `Printer.RoundTrip`, `Printer.WideLiteralLost`.
- Folding keeps bits above the width until emission, so a later right shift brings
  them back: `Folding.FoldAgreesExactly`, `Folding.FoldingWidens`.
- A unit element after anything of size asks for nearly 2^64 bytes of padding. Reserving slots
  for it never ends, or their number wraps to zero and an assertion is violated:
  `Layout.TupleMade`, `Layout.UnitsAfterSized`, `Typegen.UnitTypedefStuck`; so do unions of units,
  `Unions.UnionOfUnits`.
- A tuple made without fields still gets a field for its tail padding: last clause of
  `Layout.TupleLayout`.
- The recorded size of a union leaves out its tail padding, so it agrees with the
  structure that represents it only for one-byte payloads: `Unions.UnionLayout`.
- Tags are one byte, so the 257th variant answers to the first: `Unions.TagsRunOut`.
- Aggregate initialisers with too many values are accepted as long as padding makes up
  the difference, and the extra values are ignored: `Aggregates.ExtrasIgnored`.
- The parts of a tuple constant are generated for types at the wrong index as soon as padding comes
  before them: `Constants.TuplesAgree`, `Constants.NestedStuck`, `Constants.UntypedRefused`.
- Array constants with fewer values than elements are shorter than their type:
  `Constants.ArraysAgree`, `Constants.ShortArray`.
- Type comparison is symmetric only because a kind decides whether there are nested
  types: `Types.AsymmetricOtherwise`.
- Giving a live block back to a bump allocator reclaims nothing, because the address is
  compared with the end of the used space and not with the last block: `Allocators.UnbumpKeeps`.
- A request that rounds to 2 MiB or more makes arena chunks until memory runs out:
  `Allocators.FreshChunkAccepts`, `Allocators.ArenaAllocator.Allocate`.
- An array with one place left is moved to storage of the same capacity before that
  place is filled: `Growth.SameCapacityAgain`.
- The growth loop of arrays never ends for 2^63 elements and more: `Growth.NeverEnds`.
- Sizes near 2^64 wrap in the bump allocators and are accepted: `Allocators.WrapMovesBack`.
- The recorded peak can miss the largest number of bytes in use as soon as there are two threads:
  `Peak.PeakExactIffAlone`.

## Model

| member | source | states |
|---|---|---|
| Functions.Correct | src/biron/cg_unit.cpp:242-291 | For every function body and every oracle for its operands: the compiled blocks stop with a result and an action trace if and only if the structured semantics does, with the same result and trace |
| Functions.NeverStuck | src/biron/cg_unit.cpp:242-291 | No run of a compiled function reads an undefined register, enters a phi from a block it does not list, branches outside the graph or runs off a block |
| Functions.FnRun | src/biron/cg_unit.cpp:242-291 | A body that ends within given fuel halts the machine after finitely many steps, with the implicit return when the body falls off its end; one that does not keeps it running at least that long |
| Static.WellFormed | src/biron/cg_stmt.cpp:137-190 | Every block made is appended exactly once and ends in a terminator, every branch target is in the graph, and every phi opens its block and lists exactly the blocks that branch to it |
| Simulation.SimStmt | src/biron/cg_stmt.cpp:13-190 | From the insertion point of any statement, the machine follows the statement's meaning to the next insertion point, the loop's post or exit block, or a return |
| Simulation.SimExpr | src/biron/cg_expr.cpp:1304-1474 | Code for any nesting of `&&` and `\|\|` over effectful operands yields the source value, with the same operands asked in the same order, and keeps earlier registers |
| Simulation.SimIf | src/biron/cg_stmt.cpp:104-190 | Both arms of an `if`, its `else if` chain and its initialiser reach the join block exactly as the source meaning says |
| Simulation.SimFor | src/biron/cg_stmt.cpp:417-497 | A loop's blocks run body, post and test as the source does: `else` only when the condition fails, `continue` to post, `break` past `else` |
| Simulation.SimBlock | src/biron/cg_stmt.cpp:13-30 | A block with its deferred statements runs as its meaning says, also when a statement inside leaves it early and the statements emitted after the terminator are dead |
| Simulation.SimReturn | src/biron/cg_stmt.cpp:45-81 | A return evaluates its value, then runs every deferred statement of every open scope, innermost first, then returns that value |
| Source.DeferStack | src/biron/cg_stmt.cpp:24-29 | A block that falls off its end or returns runs each statement it registered once, last registered first, after the statements before it; one left by a jump runs none |
| Source.ContainedIsNormal | src/biron/cg_stmt.cpp:84-86 | A statement without return or escaping jump ends normally whenever it ends |
| Laws.IfLaws | src/biron/cg_stmt.cpp:104-190 | A constant condition chooses its arm; an `if` over `&&` or `\|\|` is two nested ones |
| Laws.AskLaw | src/biron/cg_stmt.cpp:104-190 | An operand is asked once and its answer chooses the arm |
| Laws.ValueLaws | src/biron/cg_stmt.cpp:32-82 | `let`, `return` and expression statements use the value of an expression as an `if` over it does |
| Laws.LoopUnrolls | src/biron/cg_stmt.cpp:417-497 | A loop means the same as an `if` over its condition whose arm is the body, the post statement and the loop again, and whose `else` is that of the loop |
| Laws.ContinueSkips | src/biron/cg_stmt.cpp:96-102 | Where the body has deferred nothing before it, `continue` leaves out the rest of the body and nothing else: the post statement still runs |
| Laws.BreakLeaves | src/biron/cg_stmt.cpp:88-94 | Where the body has deferred nothing before it, a loop whose body ends in `break` is one `if`: neither post statement nor `else` runs after the body |
| Laws.EndlessLoop | src/biron/cg_stmt.cpp:417-497 | A loop without a condition is one whose condition always holds |
| Laws.InitFirst | src/biron/cg_stmt.cpp:104-190 | The initialiser of an `if` or a loop runs once, before it |
| Laws.FallsOff | src/biron/cg_unit.cpp:242-291 | Falling off the end of a function is returning nothing, or zero, there |
| Laws.OneResult | src/biron/cg_stmt.cpp:13-190 | A statement ends in one way at most, however many iterations are allowed |
| Codegen.Cg.CodegenStmt | src/biron/cg_stmt.cpp:13-190 | The imperative generator succeeds exactly when every jump is inside a loop, leaves exactly the blocks of the specification, and leaves the scope stack as it was but for a `defer` noted in its last scope |
| Codegen.Cg.CodegenBlock | src/biron/cg_stmt.cpp:13-30 | Pushing a scope, generating the statements, emitting the scope's deferred statements in reverse and popping produces the specified block code |
| Codegen.Cg.CodegenReturn | src/biron/cg_stmt.cpp:32-82 | A return emits the deferred statements of all scopes between evaluating and returning its value |
| Codegen.Cg.CodegenIf | src/biron/cg_stmt.cpp:104-190 | The generated blocks are those of the specification, whatever the arms do to the insertion point |
| Codegen.Cg.CodegenFor | src/biron/cg_stmt.cpp:417-497 | The five blocks of a loop, with the loop recorded in the scope while its parts are generated and gone afterwards |
| Codegen.Cg.EmitDefers | src/biron/cg_unit.cpp:11-18 | Emitting a scope's deferred statements from the last to the first, each compiled as it would be at top level |
| Codegen.Cg.FindLoop | src/biron/cg.h:113-121 | The innermost loop on the scope stack, if any |
| Codegen.Cg.CodegenFn | src/biron/cg_unit.cpp:242-291 | Entry, join block, body and implicit return: the function's blocks are those of the specification, and generation fails exactly for jumps outside loops |
| Codegen.Cg.GenValue | src/biron/cg_expr.cpp:1304-1474 | The builder's blocks and value for an expression are those of the specification |
| Codegen.BlockIsListThenDefers | src/biron/cg_stmt.cpp:13-30 | Emitting deferred statements in reverse at the end of a block is the same code as wrapping each around the rest of the block |
| Codegen.ContextFree | src/biron/cg_stmt.cpp:53-59 | A deferred statement compiles to the same code under whatever scopes it is emitted |
| Grammar.OnlyOperatorsContinue | src/biron/parser.cpp:114-115 | Any token that lets the operator loop go on is an operator, so its "Unexpected token" case cannot be reached |
| Completeness.InfixBack | src/biron/parser.cpp:61-118 | Precedence climbing rebuilds any tree whose left children bind at least as tightly and right children strictly tighter, and stops right after it |
| Completeness.ExprBack | src/biron/parser.cpp:229-235 | Parsing the tokens of any canonical expression, with anything after them that does not continue it, gives it back and consumes exactly those tokens |
| Completeness.Unambiguous | src/biron/lexer.h:23-57 | Two canonical trees with the same tokens are the same tree |
| Soundness.ExprSound | src/biron/parser.cpp:183-235 | Whatever the parser returns is canonical, and its in-order tokens are the consumed input without unary plus |
| Soundness.ParsesExactly | src/biron/parser.cpp:229-235 | On input without unary plus the parser returns a tree and a rest if and only if the tree is canonical and its tokens followed by the rest are the input and nothing in the rest continues it |
| Soundness.PlusIgnored | src/biron/parser.cpp:200-202 | Unary plus leaves no trace in the tree |
| Precedence.Grouping | src/biron/parser.cpp:61-118 | For all primaries a, b, c (or a type after `as` and `is`) and all operators s, t: `a s b t c` is a with (b t c) if t stands in an earlier class than s in the list of classes from `as`, `is` and `of` to `\|\|`, and (a s b) with c otherwise, with the node of each operator named |
| Precedence.TableOrders | src/biron/lexer.h:23-57 | The table of precedences orders operators exactly as that list of classes does |
| Precedence.PrefixForms | src/biron/parser.cpp:183-225 | Which node each prefix operator makes of its operand |
| Precedence.PrefixTakesFirst | src/biron/parser.cpp:183-235 | A prefix operator takes its operand before any operator that follows |
| Precedence.PrefixTakesChain | src/biron/parser.cpp:126-173 | Postfix operators take it before the prefix operator does |
| Precedence.OperandForms | src/biron/parser.cpp:126-276 | Which node a name, a literal, a tuple, an access and an index make |
| Parser.Parser.Next | src/biron/parser.h:140-150 | Takes the peeked token if there is one, else the lexer's next, off the remaining tokens |
| Parser.Parser.Peek | src/biron/parser.h:151-155 | Returns the first remaining token and leaves the remaining tokens as they are |
| Parser.Parser.Primary | src/biron/parser.cpp:245-276 | The token-consuming method returns what the grammar says and leaves its rest, failing exactly where it fails |
| Parser.Parser.TupleList | src/biron/parser.cpp:531-562 | The list loop, with its trailing-comma and missing-parenthesis errors, meets the grammar |
| Parser.Parser.Postfix | src/biron/parser.cpp:126-173 | The postfix loop that reassigns its operand meets the grammar |
| Parser.Parser.IndexOf | src/biron/parser.cpp:28-44 | Index brackets meet the grammar |
| Parser.Parser.UnaryExpr | src/biron/parser.cpp:183-225 | Prefix operators meet the grammar |
| Parser.Parser.BinRhs | src/biron/parser.cpp:61-118 | The precedence-climbing loop meets the grammar |
| Parser.Parser.Expression | src/biron/parser.cpp:229-235 | Expression parsing meets the grammar, so all of the above hold of it |
| Printer.TokenBuilder.Print | src/biron/ast_expr.cpp:122-180 | Every printer appends exactly the tokens of the specified dump |
| Printer.TokenBuilder.PrintTuple | src/biron/ast_expr.cpp:6-15 | A tuple appends its parts with commas between |
| Printer.PrintedIsParsed | src/biron/ast_expr.cpp:122-180 | Parsing the dump of any expression the parser can produce, whose literals fit, succeeds, consumes exactly the dump, and gives the expression up to single-element tuples |
| Printer.RoundTrip | src/biron/ast_expr.cpp:35-73 | For every printable expression that round trip holds if and only if no `Sint64` literal in it is 2^31 or more |
| Printer.ParsedRoundTrip | src/biron/cg_expr.cpp:29-34 | Whatever a parse returned comes back from its dump, up to single-element tuples, exactly when its literals fit |
| Printer.WideLiteralLost | src/biron/ast_expr.cpp:65-68 | The `Sint64` literal 4294967301 prints as 5, so it does not come back |
| Bits.ClearLow | src/biron/cg_type.cpp:680-681 | Masking with the complement of 2^k - 1 subtracts the remainder modulo 2^k |
| Types.NotEqualDecides | src/biron/cg_type.cpp:235-265 | The comparison, whose sides swap at every level, is inequality of the types stripped of names |
| Types.Equivalence | src/biron/cg_type.cpp:235-265 | Its negation is reflexive, symmetric and transitive on the types the cache makes |
| Types.AsymmetricOtherwise | src/biron/cg_type.cpp:245-262 | Without the invariant that the kind decides whether there are nested types it is not symmetric |
| Types.EqualLayout | src/biron/cg_type.cpp:235-265 | Equal types have the same kind, size and alignment, and equal elements at the same offsets and virtual indices |
| Types.AtVirt | src/biron/cg_type.h:46-55 | The counting loop finds the element at the physical index of a virtual index, and nothing beyond the last |
| Types.Contains | src/biron/cg_type.h:66-73 | Finds a nested type equal to the one sought exactly when there is one |
| Layout.TypeCache.EnsurePadding | src/biron/cg_type.cpp:1041-1054 | Every slot that is kept holds padding of its own size, also after the cache shrinks; the padding asked for comes back exactly when reserving its slots, in 64 bits, ends and is granted, and their number does not wrap |
| Layout.PaddingHolds | src/biron/cg_type.cpp:1041-1054 | Padding of n bytes holds an array of exactly n single bytes |
| Layout.TypeCache.MakeTuple | src/biron/cg_type.cpp:666-752 | The loop over elements makes the specified tuple, fails or gets stuck as specified, whatever is in the cache |
| Layout.AlignUpIsCeil | src/biron/cg_type.cpp:680-681 | 64-bit mask arithmetic gives the least aligned offset, for every power-of-two alignment and every offset whose rounding does not wrap |
| Layout.TupleLayout | src/biron/cg_type.cpp:666-752 | In every tuple that is made, each element starts at the least aligned offset after its predecessor; size is the sum of the padded parts, a multiple of the largest alignment; the v-th virtual element is the v-th original one; names stay with their slots |
| Layout.TupleMade | src/biron/cg_type.cpp:678-693 | Given memory for padding, making a tuple ends with a type if and only if every unit element comes before anything of size; otherwise it never gets further |
| Layout.UnitStuck | src/biron/cg_type.cpp:680-686 | At the first unit element after something of size, on any host: the loop that reserves slots for its padding never ends, or their number wraps to zero and an assertion is violated |
| Layout.UnitsAfterSized | src/biron/cg_type.cpp:680-686 | So it is for `{Uint32, {}}`, whose loop never ends, and for `{Uint8, {}}`, whose number of slots wraps |
| Layout.TupleWellLaid | src/biron/cg_type.cpp:666-752 | Tuples of well laid elements have every nested element aligned in an aligned object |
| Layout.ArrayWellLaid | src/biron/cg_type.cpp:824-842 | So have arrays of well laid elements whose size does not wrap |
| Memory.TuplePlain | src/biron/cg_type.cpp:666-752 | A tuple made of plain types is plain, so with `Layout.TupleWellLaid` the theorems about stores apply to it |
| Memory.Emitter.Store | src/biron/cg_value.cpp:14-84 | Emits exactly the specified stores, for tuples, arrays, unions and scalars |
| Memory.Emitter.StoreElements | src/biron/cg_value.cpp:23-53 | Addresses, extracted values and stores in three loops, padding zeroed instead of read |
| Memory.Emitter.StoreTagged | src/biron/cg_value.cpp:55-77 | A scalar into a union: the value, then the index of its variant |
| Memory.Emitter.Zero | src/biron/cg_value.cpp:86-97 | Zeroing by memset above 4096 bytes and by storing a null value otherwise |
| Stores.StoreRefines | src/biron/cg_value.cpp:14-84 | For every nested tuple and array type and value: the stores amount to one write of the value with all padding zero, change nothing else, are each aligned when the object is, and load back as that value |
| Stores.StoreWrites | src/biron/cg_value.cpp:23-53 | The same for any address and value inside larger ones, which is what nested stores are |
| Stores.ZeroWrites | src/biron/cg_value.cpp:86-97 | Zeroing writes zero over exactly the object, whichever way it is done |
| Stores.StoreAligned | src/biron/cg_value.cpp:79-81 | Every single store into an aligned object is aligned to the alignment it is marked with |
| Stores.StoreMarked | src/biron/cg_value.cpp:79-97 | Every store is of a scalar, every memset is of more than 4096 bytes and of the whole part, and each is marked with the alignment of the type it writes |
| Stores.LoadBack | src/biron/cg_value.cpp:7-12 | Loading the bytes of a value gives the value |
| Stores.BytesSize | src/biron/cg_type.cpp:666-752 | A value takes exactly as many bytes as its type records |
| Unions.MakeUnion | src/biron/cg_type.cpp:754-822 | The loop computes the largest size and the overwritten alignment; the structure of payload, tag and tail padding is made, or not, as padding is |
| Unions.UnionLayout | src/biron/cg_type.cpp:776-788 | The tag follows the payload, the structure is twice the payload, and the recorded size agrees with it if and only if the payload is one byte |
| Unions.UnionOfUnits | src/biron/cg_type.cpp:779-788 | A union whose variants all have size and alignment zero violates an assertion on any host |
| Unions.UnionStore | src/biron/cg_value.cpp:55-77 | A scalar stored into a union puts its bytes at the start, its variant's index modulo 256 after the payload, and changes nothing else |
| Unions.EmitTest | src/biron/cg_expr.cpp:1840-1860 | `is` compares with the index of the first variant of its type, although it compares types the other way round, and fails when there is none |
| Unions.TestReportsType | src/biron/cg_expr.cpp:1840-1860 | After a scalar is stored, `is T` holds if and only if the variants' indices agree modulo 256; with at most 256 variants, if and only if T is the type of the scalar |
| Unions.TagsRunOut | src/biron/cg_value.cpp:65-68 | With more variants, storing variant 256 makes `is` hold of variant 0, a different type |
| Unions.ManyVariants | src/biron/cg_type.cpp:804-821 | Unions of more than 256 pairwise different variants exist: pointers nested ever deeper |
| Aggregates.GenAddr | src/biron/cg_expr.cpp:770-858 | The generator emits the specified stores, and fails for more values than physical elements or for a value of another type |
| Aggregates.FilledPlaces | src/biron/cg_expr.cpp:819-857 | Value v is at the physical slot of virtual element v; unmentioned elements are zero |
| Aggregates.InitialiserStored | src/biron/cg_expr.cpp:810-858 | For every padded tuple or array and at most as many initialisers as elements, of the right types: the stores leave each initialiser in its element and zero in padding and in what is not mentioned, and it loads as that |
| Aggregates.Accepted | src/biron/cg_expr.cpp:770-846 | Initialisers are accepted if and only if there are no more than physical elements and each that an element takes has its type |
| Aggregates.ExtrasIgnored | src/biron/cg_expr.cpp:770-828 | Initialisers beyond the last element are accepted exactly while padding makes room for them, are not compared with any type, and leave the stores as they are |
| Constants.EvalAggregate | src/biron/cg_expr.cpp:724-748 | An aggregate has a constant exactly when it has parts and all of them have one; without parts an assertion is violated |
| Constants.GenConst | src/biron/cg_const.cpp:12-188 | The recursive generator, tuples by physical index of the value and arrays by base type, yields the specified constant, error or violated assertion |
| Constants.UntypedNumber | src/biron/cg_const.cpp:176-180 | An untyped integer becomes as many bytes as the integer type asked for has, which stand, lowest first, for its number modulo what fits them, and for what the folded constant of that width emits; any other type refuses it |
| Constants.GenTuple | src/biron/cg_const.cpp:54-64 | The values of a tuple, each generated for the type at its own index, stopping at the first that fails |
| Constants.PlaceTuple | src/biron/cg_const.cpp:79-106 | Walking the type with separate physical and value indices puts zero in padding and in what is not mentioned |
| Constants.GenArray | src/biron/cg_const.cpp:149-166 | The elements of an array, as many as are given |
| Constants.TupleConstant | src/biron/cg_const.cpp:54-106 | A tuple constant, nested or not, is the run-time value if and only if each part, generated for the type at its own index, is the run-time value of that part |
| Constants.TuplesAgree | src/biron/cg_const.cpp:45-119 | For scalar initialisers of a padded tuple: the constant is what the run-time stores leave, as loaded, an untyped integer being any bytes that stand for its number, if and only if each untyped integer finds at its own index an integer type of the width of its element; typed scalars always agree |
| Constants.ArraysAgree | src/biron/cg_const.cpp:121-171 | For scalar initialisers of an array: the constant is what the run-time stores leave, as loaded, if and only if every element is given |
| Constants.ArrayFilled | src/biron/cg_expr.cpp:819-857 | What run time leaves in an array is its initialisers and then zeros, element by element |
| Constants.ShortArray | src/biron/cg_const.cpp:158-170 | The constant of `[4]Uint32{x, y}` has two elements, is no value of its type, and is not what run time leaves |
| Constants.NestedStuck | src/biron/cg_const.cpp:54-59 | The constant `(a, (x, y))` of `{Uint8, {Uint16, Uint16}}` generates its inner tuple for the padding before it, and violates an assertion |
| Constants.UntypedRefused | src/biron/cg_const.cpp:176-180 | An untyped integer for the second element of `{Uint8, Uint32}` is refused as a constant, since it is asked to be padding |
| Constants.AfterByteMade | src/biron/cg_type.cpp:666-752 | The tuples of the two examples are what the type cache makes |
| Typegen.Generator.CodegenUnit | src/biron/cg_unit.cpp:437-445 | Generation ends well exactly when every typedef has an expansion; then every name is entered once, with its full expansion, after the names in its body. Otherwise some typedef fails, or never gets a type, in the same way |
| Typegen.UnitTypedefStuck | src/biron/cg_type.cpp:680-686 | The unit `type T = {Uint32, {}}` never gets its type |
| Typegen.Generator.CodegenTypedef | src/biron/cg_unit.cpp:294-307 | A typedef is entered once however often it is asked for, and only typedefs of lower rank with it |
| Typegen.Generator.CodegenIdent | src/biron/cg_type.cpp:344-393 | An identifier is a builtin, an entered typedef, or a declared one that is generated now; its type is its full expansion |
| Typegen.Generator.CodegenType | src/biron/cg_type.cpp:323-490 | A generated type is the full expansion of its syntax, and every name in it has been entered |
| Typegen.Generator.CodegenTuple | src/biron/cg_type.cpp:267-293 | The tuple type of the generated elements, or what goes wrong with the first that has none |
| Typegen.ExpandWellMade | src/biron/cg_type.cpp:323-490 | Every generated type nests types exactly when its kind does, at every depth, which is what makes comparison of types an equivalence |
| Typegen.ExpandSturdy | src/biron/cg_type.cpp:323-490 | Every generated type without unions and wide booleans, except behind pointers, whose sizes do not come near wrapping, is plain and well laid at every depth, so that `Stores.StoreRefines` applies to it |
| Typegen.OrderIndependent | src/biron/cg_type.cpp:374-382 | Units that declare the same typedefs in different orders bind each name to the same type |
| Typegen.EnoughFuel | src/biron/cg_type.cpp:344-393 | The expansion of an acyclic type does not depend on how deep it may go, once that is deep enough |
| Typegen.UndeclaredFails | src/biron/cg_type.cpp:392 | A type that names something undeclared, at any depth, has no expansion |
| Readback.ExpansionReads | src/biron/cg_type.cpp:267-490 | Whatever is generated, read back by kind, size, extent, parts and names without its padding, is the syntax it was generated from with typedef names replaced by their bodies and groups dropped |
| Readback.ExpansionNamed | src/biron/cg_type.cpp:267-490 | A generated type carries the name of the typedef it is the body of where its syntax takes one, and no other |
| Readback.BuiltinReads | src/biron/cg_type.cpp:344-361 | The name of a builtin spells the family and the width of its type; `Length` is `Uint64` |
| Readback.TupleReads | src/biron/cg_type.cpp:666-752 | The elements of a tuple type, padding left out, are those it was made of, in order and with their names |
| Readback.ArraysAndAtoms | src/biron/cg_type.cpp:408-490 | Given its base, an array type is generated if and only if it has an extent, an atomic type if and only if the base, behind its typedefs, is an integer, an address or a pointer |
| Folding.FoldAgreesExactly | src/biron/cg_expr.cpp:1047-1111 | Over faithful operands, folding an operator and truncating gives the run-time value if and only if a right shift brings no bit down from above the width, or a comparison is not decided differently above it |
| Folding.RunCompares | src/biron/cg_expr.cpp:1150-1268 | The six comparisons of two run-time numbers are true exactly when the numbers compare so |
| Folding.RunComputes | src/biron/cg.cpp:252-292 | Run-time sums, differences and products are those of the numbers modulo the width, shifts multiply and divide by powers of two, and have no value from the width on |
| Folding.RunSelects | src/biron/cg.cpp:294-324 | Division, which has no value by zero, minimum and maximum of run-time numbers; none of them is folded |
| Folding.FoldCompares | src/biron/cg_expr.cpp:1097-1102 | Folded comparisons are one exactly when the 128-bit numbers compare so, and zero otherwise |
| Folding.FoldComputes | src/biron/cg_expr.cpp:1094-1106 | Folded arithmetic is that of the numbers modulo 2^128 |
| Folding.BitwiseMeans | src/biron/cg_expr.cpp:1103-1104 | Or and and are bit by bit, folded and at run time |
| Folding.LiteralsMean | src/biron/cg_const.cpp:17-24 | Literals and emitted constants are numbers modulo the width |
| Folding.FoldWraps | src/biron/cg_expr.cpp:1047-1111 | For a faithful expression, folding in 128 bits and wrapping once is wrapping at every step |
| Folding.ModularAgrees | src/biron/cg_expr.cpp:1094-1105 | Any expression over `+`, `-`, `*`, `\|`, `&` and shifts left by less than the width folds to its run-time value, whatever overflows |
| Folding.FittingAgrees | src/biron/cg_expr.cpp:1097-1106 | With right shifts, and a comparison at the root, it does so when nothing exceeds the width |
| Folding.ShiftRight | src/biron/cg_expr.cpp:1106 | Shifting before or after wrapping gives the same low bits if and only if the bits shifted in from above are zero |
| Folding.ArithWraps | src/biron/cg.cpp:252-292 | Each wrapping operator depends only on the low bits of its operands |
| Folding.FoldingWidens | src/biron/cg_const.cpp:17-24 | `(255 + 1) >> 1` in eight bits is 128 when folded and 0 when run |
| Pools.TestIsBit | src/biron/util/pool.h:80-82 | Testing a slot reads its bit |
| Pools.MarkSlots | src/biron/util/pool.h:72-74 | Marking a slot adds it and no other to the slots of the bitmap |
| Pools.ClearSlots | src/biron/util/pool.h:76-78 | Clearing a slot, with a mask complemented in 64 bits, removes it and no other |
| Pools.RoundUp32Is | src/biron/util/pool.cpp:20 | Counts are rounded up to whole words |
| Pools.Pool.Allocate | src/biron/util/pool.cpp:49-58 | Takes the lowest free slot and returns its address, that many objects after the start, and nothing when all are taken |
| Pools.Pool.Deallocate | src/biron/util/pool.cpp:60-68 | Frees the slot an address falls in and no other, and refuses addresses outside |
| Pools.ObjectsDisjoint | src/biron/util/pool.h:84-89 | Live objects do not overlap, in one pool or across pools |
| Pools.TakeSlot | src/biron/util/pool.cpp:49-58 | A free slot's address was not live; taking it adds that address and no other to the live set |
| Pools.FreeSlot | src/biron/util/pool.cpp:60-68 | Freeing a slot removes its address and no other from the live set |
| Pools.Cache.Allocate | src/biron/util/pool.cpp:70-83 | Ends after at most one new pool, made only when all are full; the address returned was not live and is now, and every other stays |
| Pools.Cache.Deallocate | src/biron/util/pool.cpp:85-92 | A live address is freed and no other; addresses outside every pool change nothing |
| Allocators.BumpHolds | src/biron/util/allocator.cpp:31-37 | Free space handed out is aligned to 16, inside its chunk and apart from every live block, in all chunks |
| Allocators.UnbumpKeeps | src/biron/util/allocator.cpp:51-55 | No live block starts at the free end of a chunk, so what deallocating one does to a chunk is nothing |
| Allocators.NoWrapExact | src/biron/util/allocator.cpp:32-35 | Where neither rounding nor adding to the offset wraps, 64-bit arithmetic accepts and bumps as unbounded arithmetic does |
| Allocators.WrapMovesBack | src/biron/util/allocator.cpp:32-35 | Where one of them wraps, a request that is accepted leaves the free end where it was, or moves it back over what is used |
| Allocators.FreshChunkAccepts | src/biron/util/allocator.cpp:33-48 | A new chunk accepts the request it was made for if and only if that rounds to less than 2 MiB, so is at least 16 bytes less |
| Allocators.InlineAllocator.Allocate | src/biron/util/allocator.h:64-72 | Succeeds exactly when the rounded size leaves room to spare; the block is aligned and apart from the live ones |
| Allocators.InlineAllocator.Deallocate | src/biron/util/allocator.h:73-77 | Giving a live block back leaves the rest live and the free space where it was |
| Allocators.ArenaAllocator.Allocate | src/biron/util/allocator.cpp:31-49 | From the tail, or from one new chunk; requests of 2 MiB or more use up all memory and fail |
| Allocators.ArenaAllocator.Deallocate | src/biron/util/allocator.cpp:51-55 | Chunks stay as they are |
| Allocators.ScratchAllocator.Allocate | src/biron/util/allocator.cpp:67-72 | Inline first, then arena; the block is apart from every live block of both |
| Allocators.ScratchAllocator.Deallocate | src/biron/util/allocator.cpp:74-80 | Finds the owner, removes only that block and hands nothing out again |
| Allocators.OwnedOnce | src/biron/util/allocator.h:78-82 | A live block is owned by inline storage exactly when it came from there |
| Allocators.Combined | src/biron/util/allocator.cpp:67-80 | The live blocks of inline storage and arena together do not overlap |
| Growth.EndsExactly | src/biron/util/array.inl:126-129 | The growth loop, in 64 bits, ends within so many turns if and only if one of the capacities up to there is enough |
| Growth.NextBound | src/biron/util/array.inl:128 | Below a third of 2^64 the next capacity is one and a half times one more, rounded down |
| Growth.LeastTerm | src/biron/util/array.inl:126-129 | For lengths below a third of 2^64 it ends within that many turns, with the least capacity of the sequence that is enough |
| Growth.NeverEnds | src/biron/util/array.inl:126-129 | For lengths of 2^63 and more it never ends |
| Growth.FallsBack | src/biron/util/array.inl:128 | From the first capacity of a third of 2^64 on, multiplication wraps and the next capacity is a smaller one |
| Growth.PushesAreLinear | src/biron/util/array.inl:49-56 | n pushes from empty, n below a third of 2^64, move at most 6n elements in all, and capacity stays in the sequence |
| Growth.SameCapacityAgain | src/biron/util/array.inl:122-125 | Filling the last place moves everything to storage of the same capacity |
| Growth.Array.Reserve | src/biron/util/array.inl:122-141 | Contents are kept; storage with room to spare is kept; otherwise capacity is what the loop ends with, if it ends and memory is granted |
| Growth.Array.PushBack | src/biron/util/array.inl:49-56 | Appends the value at the cost of one specified push, or changes nothing |
| Growth.Array.Resize | src/biron/util/array.inl:102-120 | Drops from the end or adds default elements, keeping the others |
| Peak.RunInv | src/biron/util/allocator.cpp:7-29 | Over every interleaving, spurious failures included: the peak never falls and no completed call is forgotten |
| Peak.PeakBounds | src/biron/util/allocator.cpp:7-13 | The peak is at least every value a completed call passed in, is zero or a proposed value, and never exceeds the largest count |
| Peak.SettledPeak | src/biron/util/allocator.cpp:7-13 | Once no call is under way the peak is exactly the largest value proposed |
| Peak.CallIsFetchMax | src/biron/util/allocator.cpp:7-13 | Whatever other threads do and however often its exchanges fail, a call raises the peak in exactly one step, from the value it returns to the larger of that and its own; its other steps leave the peak alone |
| Peak.CountIsInUse | src/biron/util/allocator.cpp:15-29 | Over every interleaving the count is the number of bytes in use, sizes allocated less sizes given back; the highest count is the largest number in use at any point; the values calls propose are the numbers in use when they read it |
| Peak.PeakIsHighest | src/biron/util/allocator.cpp:15-29 | In every settled state the peak is the largest number of bytes in use at any point of the run if and only if that is zero or some call read it |
| Peak.AlonePeak | src/biron/util/allocator.cpp:15-29 | With at most one thread, spurious failures included, the peak of a settled state is the largest number of bytes in use at any point of the run |
| Peak.PeakMissed | src/biron/util/allocator.cpp:17-18 | With any two or more threads there is a run in which it is not: 30 bytes are in use, and the peak is 20 |
| Peak.PeakExactIffAlone | src/biron/util/allocator.cpp:15-29 | So the peak is the largest number of bytes in use in every settled state if and only if there is at most one thread |
| Format.ReadBack | src/biron/util/format.cpp:72-80 | Decimal text reads back as the number, without leading zeros |
| Format.SignedReadsBack | src/biron/util/format.cpp:46-54 | So does signed text, sign first |
| Format.OneNumeral | src/biron/util/format.cpp:72-88 | The text of a number is the only one that consists of digits, after a sign if negative, without leading zeros, and reads as it |
| Format.StringSpecifiers | src/biron/util/format.cpp:23-45 | `%s` and `%S` copy their string in front of what the rest of the format expands to |
| Format.NumberSpecifiers | src/biron/util/format.cpp:46-88 | `%d`, `%u` and `%zu` write the decimal text of their number there |
| Format.PlainText | src/biron/util/format.cpp:16-128 | Other characters stand for themselves, `%%` for one `%`, and an unknown specifier ends the text |
| Format.Decimal | src/biron/util/format.cpp:72-88 | The digits filled backwards into the buffer are the decimal text, with its sign |
| Format.FormatVa | src/biron/util/format.cpp:8-133 | Measured length is written length; the output is the specified expansion, up to the first unknown specifier, which is reported; nothing after it is touched |
| Format.Format | src/biron/util/format.h:41-64 | Two passes fill a buffer of the measured size with the expansion; an unknown specifier or a buffer that cannot be made gives no text |
| Format.StringBuilder.AppendUint | src/biron/util/string.cpp:92-114 | Measuring, resizing and filling from the end appends the decimal text; without memory nothing is appended and the builder becomes invalid |

## Left out

- Loading LLVM, optimisation, object files, `main`, system layers, terminal, files and thread wrappers are input and output.
- Statements that do not branch (assignments, expression statements, `let`) are opaque actions in a trace, and boolean operands ask an oracle; `using` declarations, flow-sensitive tests and argument stores are not part of this model.
- Deferred statements crossed by `break` or `continue` are not run by the code, and `break` and `continue` in a loop's `else` block target that loop; the source semantics is defined that way.
- Deferred statements that return, jump out of themselves or are themselves `defer` are not modelled: they would be regenerated under the scopes of the exit.
- Returning unions and single-element tuples is modelled as returning a value.
- In expressions: floating-point, string and character literals, selectors, aggregates and `new`; a type operand of `as` and `is` is one token. Character positions of tokens are not modelled.
- Enum, function and argument types in type generation, effects, and allocation failures other than of padding types; array extents come evaluated. The name of a padding type leaves out its digits.
- A host is given by how many turns of the growth loop are watched and how much memory is granted; statements about it hold for all of them.
- Typegen.Generator.CodegenUnit: is for units whose typedefs have distinct names and no cycles; on a cycle the source recurses without end.
- Memory.Emitter.Store: a union takes scalars only, and its first two variants are not unions, because the source uses the types of those two variants for its payload and tag. `Bool16`, `Bool32` and `Bool64`, whose stored form is one bit, and unions nested in aggregates, whose stored form is larger than recorded, are not plain types; implicit dereference in `at` is left out.
- Unions.UnionLayout: variants have power-of-two sizes, as scalars do, because the alignment of a union is computed from sizes.
- Folding.FoldWraps: is for unsigned typed literals; signed 128-bit overflow is undefined in the source, and comparisons appear at the root only, since their run-time value has another type than their folded one. The boolean type that `as` gives them is left out.
- Constants.GenConst: is for scalars, untyped integers, tuples and arrays; untyped reals, strings and the fields of tuple constants are left out, as is whether the structure of a nested constant is named. Bytes are those of a little-endian target.
- Pools.Pool.Deallocate: one past the last address is not passed, since the source would write past its bitmap there; regions are therefore assumed not to touch. Iteration over a cache is left out.
- Pools.Cache.Deallocate: the same holds for the ends of all its pools.
- Allocators.ArenaAllocator.Allocate: like the other two, is for sizes whose rounding, and whose addition to the offset and to the header of a chunk, do not wrap in 64 bits; `Allocators.WrapMovesBack` says what happens otherwise.
- Allocators.InlineAllocator.Allocate: the same sizes.
- Allocators.ScratchAllocator.Allocate: the same sizes.
- Growth.LeastTerm: for lengths from a third of 2^64 up to 2^63 it is not decided which of them the sequence, which falls back there, ever reaches. That the number of bytes of such storage wraps too is left out.
- Growth.Array.PushBack: moving and destroying elements is copying; it is for fewer than a third of 2^64 elements.
- Peak.PeakBounds: counters are unbounded, and deallocations match allocations.
- Format.FormatVa: `%p` and `%d` of the least integer are excluded, and arguments match their specifiers.
- Function-call argument matching, element-wise array arithmetic and slices would add nothing harder.
