# Bluejay in Dafny

Bluejay is a small x86 operating system with a Lisp compiler. This project models the
parts of it that have properties worth proving, and proves them with Dafny 4.11:

- the Lisp-to-x86 compiler, from s-expressions to the state of a running machine;
- the run-time half of `apply`;
- the mark-and-sweep collector;
- the ext2 driver: directories, hard links, inodes, file contents;
- the s-expression reader and printer;
- the round-robin scheduler and its task list;
- the min-heap of free holes.

`dafny verify dfyconfig.toml` checks everything. No file depends on anything outside.

## How it is laid out

**The compiler.** `Words` and `Scopes` hold the data: source forms, machine words,
instructions, and the compile-time record of one function. `Codegen` says as functions what
code each form gets. `Compiler` and `Local` are the compiler as it is written, methods that
append to a buffer and change a record with an enclosing record; each is proved to do exactly
what the function of `Codegen` says, errors included. `Machine` is the target: registers, a
stack of words, cons cells, closures. Code is a list of instructions with labels, and a call
to a Lisp function really enters its code, with a return address on the stack. `Source` is the
meaning of the language: an evaluator with lexical environments, fuel, and a heap of cells.
`CodegenFacts` follows scopes and labels through code generation, `Frames` relates a source
environment to a running frame, `Steps` and `Pieces` run short sequences, and `Correctness`
has one lemma per form and the recursion that ties calls, closures, `apply` and tail calls
together. `CaptureFacts` shows that what the compiler captures are the free variables of the
source, and `CopyFacts` that `apply` copies the same closures on both sides. `TailCalls`
follows runs of self-calls, `LetFacts` what a `let1` leaves behind, and `FrameFacts` the first
pass that sizes frames. `WellFormed` says of the syntax alone which forms compile, and
proves it. `Laws` has what the written forms mean. `Templates` says what a backquote builds.
`Theorems` has the statements about whole programs.

The source and the machine allocate alike, so a cons cell has the same address on both sides
and sharing and mutation (`merge2` links in place) are part of what is proved equal. Closures
are related one by one: the machine closure holds the compiled code of the source closure and,
under the number the compiler gave each captured name, the value of that name. The closures
that `apply` makes when it copies its argument list are related in the same way.

**The rest.** `Cells` and `CallList`: lists in the cell heap, `merge2`, `deep_copy`,
`call_list_args`, `_call_list`. `Gc`: allocations are objects with mutable links and marks,
the list is doubly linked. `Ext2Blocks`, `Ext2Disk`, `Ext2Dir`, `Ext2Driver`, `Ext2Files`:
byte-level blocks, a disk that is rewritten block by block, and the driver's loops over
buffers; `Ext2Structs`: the records as they are declared, and that the driver reads them so. `Reader` and `ReaderStream`: the reader as functions of text and position, and as
methods on a stream. `Tasks`: the scheduler as a state machine, and the task list as linked
objects. `Heap`: the heap in an array.

A method that changes state is proved against a function of the old state, and what is
promised about it is proved about that function.

Large predicates and functions are often hidden in a proof (`hide`), or guarded by a
quantifier over `Opened`, to keep each proof small; this changes no statement.

## Where the code does not do what one expects

Each of these is stated as a lemma or in a contract, with the exact condition or a
concrete input.

- `(progn)` emits nothing, so the value is whatever eax held; the language reference
  (`doc/lisp_reference/lisp_reference.tex`, lines 156 to 170 and 228) has nil for an empty
  body. `Source` gives an empty body no meaning. An empty `let1` is an error in the code and
  nil in the reference. (`EmptyPrognEmitsNothing`)
- The reference ends the scope of a `let1` variable with the form. The code frees the slot
  and leaves the name on the variable list, so a later use of it compiles. For
  `(let1 (x 1) (let1 (x 2) x) x)`, which is 1, the code computes 2. (`LetNameStays`,
  `HiddenName`; exactly which names are affected: `NameSurvives`)
- `local_alloc` does not count the entry when it grows the slot map, and `walk_and_alloc`
  does not look into the value of a `let1`. So the frame can be too small for the slots that
  are handed out. (`FiveLetsOverflow`, `HiddenLetOverflow`; exactly when: `FrameHolds`)
- `merge2` links the spliced list itself. A list that is still in use in the result is
  changed by splicing it, up to becoming circular. (`SpliceCanCycle`; exactly when it goes
  well: `MergeSplices`)
- The loop of `_call_list` ends on `jcxz`, which tests 16 bits: of more than 65536 arguments
  the first ones are not stored. (`LaidOutWhole`)
- A function that is not variadic gets one word too many from `apply`. It is harmless.
  (`ApplyAgrees`)
- `_sweep` compares with `first_a` and `last_a` after `a` has moved on. The list is intact
  afterwards exactly if the oldest allocation survives and the two newest share their fate.
  (`Sweep`, `DoGc`, `SurvivorsValid`)
- A hard link in a directory without room is reported as made; the name is not in the
  directory, and the last block of the directory is written over the block whose number
  stands behind those of the directory, usually block 0. (`LinkWithoutRoom`; exactly when
  the inodes survive: `WithoutRoomSpares`)
- Names are compared up to the shorter length, so two names are taken for equal exactly if
  one is a prefix of the other (`MatchesPrefix`). Behind an entry `a` the name `ab` cannot be
  found, and while `a` exists no link to `ab` is made (`PrefixHides`). An entry is found by
  its name exactly if no earlier name is a prefix of it or continues it (`FindsItself`), and
  a name is free exactly if this holds of all names (`FreeName`).
- `ext2_file_read` asks for one block behind the last it needs, and so panics one block
  earlier than `ext2_read_inode`. (`FileReadPanicsEarlier`)
- Strings are printed without escapes, so those with a quote or a backslash do not read back;
  nil reads back as a symbol and a pair as a list of three. (`StringReadsBack`,
  `NilReadsAsSymbol`, `PairReadsAsList`; exactly which values read back: `ReadsBackIff`)
- A double quote ends a string even behind a backslash, so a string with one cannot be
  written at all. (`StringWritable`)
- A comma in front of a symbol that begins with `@` is read as a splice of the rest.
  (`CommaForm`)
- A let1 binding may be a pair `(x . atom)`, whose value is nil; a parameter list may have
  numbers and strings in it, which are passed over, and names behind the one that follows
  `&`. (`CompilesIff`: all that is accepted)
- `heap_delete` "decreases" a key to -1, which is the largest unsigned key. It removes the
  named entry only at the root. (`DeletesNamed`)
- `heap_delete_root` lowers the unsigned size before and after its copy. With one entry the
  size becomes 0xFFFFFFFF, and what is copied to the root lies in front of the array.
  (`HeapDeleteRoot`, `HeapDelete`: the size is right exactly with two entries or more, at the
  root also with none)
- `heap_lookup_min` follows the smaller child and can miss an entry that is large enough.
  (`WalkMisses`; exactly when it finds one: `LookupFinds`)

## Model

| member | source | states |
|---|---|---|
| `Theorems.ProgramCorrect` | src/lisp/compiler.dasc:136-224 | whole programs, on top of any good environment such as the builtins: a function of a compiled file, called with one word per parameter, runs and returns the value, the cells and the closures of the source call, and hands back the caller's code position, ebp, edi and every stack word below the arguments |
| `Theorems.DefineAllOk` | src/lisp/compiler.dasc:226-279 | compiling any number of definitions, each seeing those before it, keeps the invariant that every function of the environment holds the code of its own source |
| `Theorems.DefinesIff` | src/lisp/compiler.dasc:226-255 | a definition compiles if and only if it is well formed in a place without variables |
| `Theorems.DefineFinds` | src/lisp/compiler.dasc:226-255 | a definition that compiles is found under its name, on top of those before it, with the code of its source; every other name finds what it found before |
| `Theorems.FileFinds` | src/lisp/compiler.dasc:226-279 | in a compiled file the last definition of a name is found if it compiles where it stands, and for other names what was found before |
| `Theorems.IdentityRuns` | src/lisp/compiler.dasc:136-224 | the hypotheses of `ProgramCorrect` can be met: `(defun id (x) x)` returns the word it is called with |
| `Theorems.StandardOk` | src/lisp/lib/std.c:290-328 | C functions and apply are such an environment |
| `Correctness.CorrectExpr` | src/lisp/compiler.dasc:590-1038 | for every form: from any state whose frame agrees with the environment, the emitted code ends behind itself with eax equal to the source value, related heaps, and esp, ebp, edi, parameters and live let1 slots unchanged; in tail position it may instead have returned from the function with that value |
| `Correctness.CorrectForm` | src/lisp/compiler.dasc:609-984 | the same for each special form and for calls, by the chain of keyword tests |
| `CompilesFacts.CompilesIff` | src/lisp/compiler.dasc:590-1038 | a form compiles if and only if it is well formed: the operand counts of every special form, let1 bindings, callees and their argument counts, parameter lists, templates, and known names, with those that let1s leave; otherwise the error is the first one in order of compilation |
| `CompilesFacts.AcceptsFunction` | src/lisp/compiler.dasc:136-224 | a function compiles if and only if its parameter list is in order and its body well formed with their names known, with the same errors |
| `CompilesFacts.SignatureAgrees` | src/lisp/compiler.dasc:1187-1284 | which parameter lists are accepted, and the names and the argument record they declare |
| `Laws.NamedConstants` | src/lisp/compiler.dasc:597-604 | nil, t and +current-file+ compile to nil, the integer 2 and the file name, and mean that |
| `Laws.Literals` | src/lisp/compiler.dasc:605-608 | numbers, strings, nil and quoted forms compile to themselves |
| `Laws.IfLaw` | src/lisp/compiler.dasc:620-641 | (if c x y) and (if c x) have the value of x if c is not nil, and of y or nil otherwise |
| `Laws.AndLaw` | src/lisp/compiler.dasc:642-674 | (and x) is x, and (and x . rest) is (if x (and . rest)) |
| `Laws.OrLaw` | src/lisp/compiler.dasc:642-674 | (or x) is x, and (or x . rest) is x unless that is nil, and then (or . rest) |
| `Laws.PrognLaw` | src/lisp/compiler.dasc:675-684 | (progn x) is x, and (progn x . rest) is (progn . rest) after x |
| `Laws.LetLaw` | src/lisp/compiler.dasc:685-722 | (let1 (n e) . body) is (progn . body) where n stands for the value of e |
| `Laws.ListLaw` | src/lisp/compiler.dasc:782-796 | (list) is nil, and (list x . rest) conses x to (list . rest), which is evaluated first |
| `Laws.HasValue` | src/lisp/compiler.dasc:590-846 | forms without calls and splices whose variables are bound have a value, with any fuel and heap |
| `Laws.PlainTidy` | src/lisp/compiler.dasc:685-722 | forms that mention neither let1 nor lambda meet the hypotheses of `CorrectExpr` |
| `Laws.LetTidy` | src/lisp/compiler.dasc:685-722 | a let1 meets them if and only if its name is not visible where it stands and its parts meet them |
| `Correctness.CorrectFunction` | src/lisp/compiler.dasc:192-224 | entering a compiled function at its first instruction with its arguments laid out returns to the caller with the source result, for functions and closures of any nesting |
| `Correctness.CorrectArgs` | src/lisp/compiler.dasc:906-952 | the argument code of a direct call pushes exactly real_nargs words, the first on top, and they are the words the source call binds |
| `Correctness.ArgsMeaning` | src/lisp/compiler.dasc:906-952 | those words are the given values, then the defaults of the missing optional parameters, then the rest list if variadic; the rest list is computed first |
| `Correctness.CorrectLambda` | src/lisp/compiler.dasc:797-846 | closure conversion: the emitted code makes a closure that stands for the source closure with the environment of its creation |
| `CaptureFacts.TracesFunction` | src/lisp/compiler.dasc:1064-1088 | the captures of a compiled function are the free variables of its source, in the order in which the code is generated, and its enclosing scope changes by looking up just these |
| `CopyFacts.ArgsRelated` | src/lisp/compiler.dasc:1092-1100 | apply copies alike on both sides: the same list, the same cells, and closures that stand for each other, those newly made included |
| `Correctness.DoCaptures` | src/lisp/compiler.dasc:818-840 | the capture code stores, at the number of each captured name, the value that name has in the enclosing environment |
| `Correctness.ApplyClosure` | src/lisp/call_list.s:11-64 | applying a closure to a list, which may hold closures, runs its code with edi set to it and the laid-out arguments, returns the source result, and restores edi, ebp and the stack |
| `Correctness.TailCall` | src/lisp/compiler.dasc:954-971 | the pop-and-overwrite sequence reaches function entry with the new arguments in place, the same return address and caller ebp, and nothing changed below |
| `Correctness.CorrectBackquote` | src/lisp/compiler.dasc:463-531 | the code of a template computes its source meaning and leaves the stack balanced |
| `Theorems.CapturesNumbered` | src/lisp/compiler.dasc:1064-1088 | the captured names of a compiled function are distinct, are numbered 0 to num_closure_slots - 1, and each is known to the enclosing scope |
| `TailCalls.TailStep` | src/lisp/compiler.dasc:954-971 | whenever the source ends a run of a function with a self-call in tail position, the machine goes from entry to entry, with the arguments of that call, the same stack height, return address and caller ebp, and the same words below the arguments |
| `TailCalls.TailCallsInPlace` | src/lisp/compiler.dasc:954-971 | so for any number of such calls, also of a run that never ends |
| `TailCalls.NextMeaning` | src/lisp/compiler.dasc:954-971 | a run that ends with a self-call has the value of that call |
| `Theorems.ApplyAgrees` | src/lisp/compiler.dasc:1092-1137 | given the values of a direct call as a list, apply passes a word of the same structure for every parameter, defaults and rest list included; it passes one word more if the function is not variadic |
| `Theorems.BackquoteCode` | src/lisp/compiler.dasc:463-531 | running the code of a template leaves in eax the template with the inserted structures in their places, closures included, old cells unchanged, and esp, ebp, edi, parameters and live let1 slots as they were |
| `Theorems.EmptyPrognEmitsNothing` | src/lisp/compiler.dasc:675-684 | an empty progn emits no code in any scope |
| `Theorems.LetNameStays` | src/lisp/compiler.dasc:708-721 | behind a let1 its variable still compiles, to the abandoned slot, where the source has no such variable |
| `Theorems.HiddenName` | src/lisp/compiler.dasc:708-721 | why no let1 may hide a variable: a form that is 1, and the run of its code that ends with 2 in eax |
| `Templates.BackquoteBuilds` | src/lisp/compiler.dasc:463-531 | the meaning of a template is the filled-in template: literal parts kept, unquoted values, closures among them, as one element each, spliced lists concatenated in order, spliced atoms consed |
| `Templates.SpliceLaw` | src/lisp/compiler.dasc:489-526 | (unquote-splice e) in a template is spliced into what the rest builds, by the code of the rest, then that of e, then the call of merge2 |
| `Templates.ElementLaw` | src/lisp/compiler.dasc:489-526 | anything else in a template is one element, by the code of the rest, then its own, then the call of cons |
| `Templates.UnquoteLaw` | src/lisp/compiler.dasc:463-488 | (unquote e) stands for the value of e, by the code of e |
| `Templates.ConstantStructure` | src/lisp/compiler.dasc:463-475 | a constant has the structure of its form as long as its cells are not changed |
| `Templates.MergeSplices` | src/lisp/lisp.c:752-783 | merge2 stands for the concatenation (or the cons, for a front that is no list) if and only if the cell it relinks is part neither of what it is linked to nor of an element, or there is nothing to link |
| `Codegen.FindsNewest` | src/lisp/compiler.dasc:49-58 | the newest definition of the name is what is found |
| `Codegen.NoneDefined` | src/lisp/compiler.dasc:49-58 | and nothing if and only if no definition has the name |
| `CodegenFacts.SoundExpr` | src/lisp/compiler.dasc:590-1038 | generating code for any form only adds captures and let1 names, frees every slot it took, and places only fresh labels, each once |
| `CodegenFacts.SoundFunction` | src/lisp/compiler.dasc:136-224 | the scope of a compiled function is well numbered, its captures resolve in the enclosing scope, and that scope only gained captures |
| `CodegenFacts.ParamsDeclared` | src/lisp/compiler.dasc:1187-1284 | for a well-formed parameter list the declared variables are the parameters, by position, and the argument record is the list's |
| `ScopeFacts.FindVariableGrows` | src/lisp/compiler.dasc:1064-1088 | a lookup changes scopes only by adding captures, keeps all numberings, and afterwards the scope itself knows the name |
| `ScopeFacts.FreeNumber` | src/lisp/compiler.dasc:1064-1088 | a capture's number is its place among the captured names |
| `ScopeFacts.LetEvolves` | src/lisp/compiler.dasc:706-721 | around any code, a let1 gives its slot back and leaves every visible variable where it was |
| `Scopes.FirstUnused` | src/lisp/compiler.dasc:60-73 | the least unused slot, or their number if all are in use |
| `FrameFacts.FrameHolds` | src/lisp/compiler.dasc:192-200 | the frame of any function that compiles holds every slot handed out for its body if and only if the first pass counted at least as many entries as the body has let1s nested at once |
| `FrameFacts.FrameEntriesExact` | src/lisp/compiler.dasc:281-307 | the first pass counts the depth of the let1s it sees, up to four |
| `FrameFacts.FrameFits` | src/lisp/compiler.dasc:281-307 | at most four nested let1s, none in a binding value or a template, always fit |
| `FrameFacts.FiveLetsOverflow` | src/lisp/compiler.dasc:75-83 | five nested let1s need five entries and get four |
| `FrameFacts.HiddenLetOverflow` | src/lisp/compiler.dasc:296-307 | a let1 in the value of another is not counted |
| `LetFacts.LeavesExpr` | src/lisp/compiler.dasc:685-722 | what generating code for a form leaves: the names of its let1s, in abandoned slots, and as many slots handed out as they nest |
| `LetFacts.LeavesFunction` | src/lisp/compiler.dasc:136-224 | the slots of a compiled function are those below the nesting depth of its let1s, and the deepest is handed out |
| `LetFacts.NameSurvives` | src/lisp/compiler.dasc:708-721 | behind any form a name is found where it was, or as a new capture, if and only if no let1 of the form binds it |
| `Compiler.CompileExpression` | src/lisp/compiler.dasc:590-1038 | appends to the buffer exactly the specified code, leaves the specified record (and enclosing records), or fails with the specified error |
| `Compiler.CompileCallForm` | src/lisp/compiler.dasc:609-620 | the same for a form with a symbol in front |
| `Compiler.EmitIf` | src/lisp/compiler.dasc:620-641 | if: test, both branches, labels allocated in between |
| `Compiler.EmitAndOr` | src/lisp/compiler.dasc:642-674 | and, or: every operand but the last followed by the early exit |
| `Compiler.EmitBody` | src/lisp/compiler.dasc:675-684 | forms in sequence, the last in tail position |
| `Compiler.EmitLet1` | src/lisp/compiler.dasc:685-722 | let1: value, slot, name, body, slot freed |
| `Compiler.EmitList` | src/lisp/compiler.dasc:782-796 | list: consed up from the last form |
| `Compiler.EmitLambda` | src/lisp/compiler.dasc:797-846 | lambda: the function is compiled with this record as parent, then the captures are loaded |
| `Compiler.EmitCaptures` | src/lisp/compiler.dasc:822-840 | the loop over the variables of the new function |
| `Compiler.EmitCall` | src/lisp/compiler.dasc:882-984 | self-call, tail self-call, and calls of other functions |
| `Compiler.EmitArgs` | src/lisp/compiler.dasc:906-952 | rest list, missing defaults, then the other arguments, or the error for a wrong number |
| `Compiler.EmitFunction` | src/lisp/compiler.dasc:136-224 | compile_function: a fresh record, parameters, first pass, setup, body, cleanup |
| `Compiler.SizeFrame` | src/lisp/compiler.dasc:192-200 | the first pass yields the frame size and clears the slots |
| `Compiler.EmitBackquote` | src/lisp/compiler.dasc:463-531 | compile_backquote: constants, unquote, or the loop over the elements |
| `Compiler.EmitTemplate` | src/lisp/compiler.dasc:489-526 | the loop from the last element to the first, each consed or merged |
| `LocalState.Local.Alloc` | src/lisp/compiler.dasc:60-84 | takes the least free slot; growing the map adds four and does not count the entry |
| `LocalState.Local.Free` | src/lisp/compiler.dasc:86-89 | gives the slot back and changes nothing else |
| `LocalState.Local.FindVar` | src/lisp/compiler.dasc:1064-1088 | searches the list, then the enclosing records, and records what it finds there as a capture in every record on the way |
| `LocalState.Local.Walk` | src/lisp/compiler.dasc:281-361 | the first pass over one form |
| `LocalState.Local.DeclareArgs` | src/lisp/compiler.dasc:1187-1284 | the loop over a parameter list: required, optional, rest, and its errors |
| `LocalState.Local.Add` | src/lisp/compiler.dasc:1040-1052 | the new variable comes first |
| `Cells.WalkComplete` | src/lisp/lisp.c:571-589 | a chain that ends is walked to its end within as many steps as there are cells |
| `Cells.Merge2Concatenates` | src/lisp/lisp.c:752-783 | merging two proper lists changes one cdr, and gives a proper list, the concatenation, if and only if the last cell of the first is not a cell of the second |
| `Cells.SpliceCanCycle` | src/lisp/lisp.c:772-783 | a list merged with itself never ends |
| `CallList.DeepCopyCopies` | src/lisp/lisp.c:714-750 | the copy has the structure of the original, closures with what they captured included, in new cells and closures; nothing old changes, and copying ends exactly for finite structures |
| `CallList.ApplyBinds` | src/lisp/compiler.dasc:1092-1137 | call_list_args succeeds if and only if the values are finite and not too few; then the words laid out are copies of the values, closures among them, then the defaults, then a list of copies of the rest |
| `CallList.CallListLoop` | src/lisp/call_list.s:33-55 | the counted loop fills the reserved area with the elements of the list |
| `CallList.LaidOutWhole` | src/lisp/call_list.s:52-53 | all of them if and only if there are at most 65536 |
| `CallList.ElementAt` | src/lisp/lisp.c:581-589 | elt on a proper list |
| `Gc.Collector.AddThisAlloc` | src/lisp/lisp.c:34-52 | appends to the list, unmarked, in the current pool, and keeps the list well linked |
| `Gc.Collector.Mark` | src/lisp/gc.c:65-111 | ends on every heap, cyclic or not; what gets marked is reachable from the value, all its children are marked too, no other mark changes, and the counter rises by the number of newly marked allocations |
| `Gc.Collector.MarkRoots` | src/lisp/gc.c:183-214 | marking every root marks all that they reach and nothing else |
| `Gc.Collector.MarkPhase` | src/lisp/gc.c:172-218 | with no current marks at the start, exactly what the roots reach is marked |
| `Gc.Collector.Sweep` | src/lisp/gc.c:119-156 | frees exactly what is neither marked nor pooled, and leaves the survivors linked both ways in their old order; where first_a and last_a point afterwards |
| `Gc.Collector.DoGc` | src/lisp/gc.c:172-221 | a collection keeps exactly what is pooled and what chains of pointers lead to, from a root through cars and cdrs of conses and captured values of closures; whatever these have, except classes, is still there; the list object is valid afterwards if and only if the oldest survives and the two newest share their fate; no survivor has a dangling pointer if and only if none of the unmarked ones, and no class pointer, points to a freed allocation |
| `Gc.LiveMarked` | src/lisp/gc.c:65-111 | a set of marks closed under children and reachable from the roots is the set of live allocations |
| `Gc.LiveIsLedTo` | src/lisp/gc.c:65-111 | what is live is what some chain of pointers leads to from a root, each a car, a cdr or a captured value of the one before |
| `Gc.LiveIntact` | src/lisp/gc.c:65-111 | the car and the cdr of a live cons and all captured values of a live closure are live |
| `Gc.ReachableInside` | src/lisp/gc.c:65-111 | a set closed under children that holds the roots holds all that is reachable |
| `Gc.SurvivorsAre` | src/lisp/gc.c:119-156 | the survivors are the kept elements of the list, each once |
| `Gc.SurvivorsValid` | src/lisp/gc.c:137-147 | when first_a and last_a are the ends of the survivors |
| `Gc.SurvivorsFirst` | src/lisp/gc.c:137-142 | first_a is right if and only if the oldest allocation survives |
| `Gc.SurvivorsLast` | src/lisp/gc.c:137-147 | last_a is right if and only if the two newest share their fate |
| `Gc.StaysClosed` | src/lisp/gc.c:65-111 | what a survivor that was not marked, or a class pointer, may point to |
| `Ext2Blocks.Pad` | include/kernel/kint.h:27-27 | the least multiple of four that is large enough |
| `Ext2Blocks.SplitEntry` | src/kernel/dri/fs/ext2/ext2.c:368-396 | after a split the old entry reads as before, the new one reads as inserted, and together they are as long as the old one was |
| `Ext2Blocks.SpliceLists` | src/kernel/dri/fs/ext2/ext2.c:345-402 | splicing keeps a block exactly tiled, and lists the old entries in order with the new one right behind the one it was split from |
| `Ext2Blocks.InsertIntoBlock` | src/kernel/dri/fs/ext2/ext2.c:345-402 | the loop over one buffer splices at the first entry with room, or leaves the buffer as it was |
| `Ext2Blocks.RoomFirst` | src/kernel/dri/fs/ext2/ext2.c:345-402 | the entry that is split is the first whose length exceeds what it needs by at least what is asked for; none is if there is none |
| `Ext2Dir.InsertedLists` | src/kernel/dri/fs/ext2/ext2.c:326-412 | the same for the whole directory |
| `Ext2Dir.MatchesPrefix` | src/kernel/dri/fs/ext2/ext2.c:639-691 | two names are taken for equal if and only if one is a prefix of the other |
| `Ext2Dir.FindsItself` | src/kernel/dri/fs/ext2/ext2.c:672-709 | an entry is what its name finds if and only if no earlier name is a prefix of it or continues it |
| `Ext2Dir.FreeName` | src/kernel/dri/fs/ext2/ext2.c:639-670 | a name is not contained if and only if no listed name is a prefix of it or continues it |
| `Ext2Dir.PrefixHides` | src/kernel/dri/fs/ext2/ext2.c:672-709 | the entries a and ab: finding ab gives the inode of a, and with a alone ab is not free |
| `Ext2Dir.LookupInserted` | src/kernel/dri/fs/ext2/ext2.c:672-709 | exactly which lookups an insertion changes |
| `Ext2Dir.NewNameFound` | src/kernel/dri/fs/ext2/ext2.c:639-709 | a name that no entry matched is found after its insertion, and every listed name gives what it gave before |
| `Ext2Dir.CutMatches` | src/kernel/dri/fs/ext2/ext2.c:329-329 | cutting a name to 255 bytes does not change how it compares |
| `Ext2Dir.Strnlen` | src/kernel/x86_32/io.c:95-104 | counts up to the first NUL |
| `Ext2Dir.Strncmp` | src/kernel/x86_32/io.c:106-119 | 0 if and only if the two agree up to the first NUL or the length |
| `Ext2Disk.PlacesDiffer` | src/kernel/dri/fs/ext2/ext2.c:187-231 | number to (block, index) is injective |
| `Ext2Disk.StoreFind` | src/kernel/dri/fs/ext2/ext2.c:187-243 | setting an inode and finding it gives what was set, and every other inode is unchanged |
| `Ext2Disk.LayoutStays` | src/kernel/dri/fs/ext2/ext2.c:83-123 | a write outside the descriptors moves no inode table |
| `Ext2Disk.OverwriteSpares` | src/kernel/dri/fs/ext2/ext2.c:83-123 | overwriting any block keeps inode tables and inodes if and only if the new content repeats those that the block holds |
| `Ext2Disk.OneMoreLink` | src/kernel/dri/fs/ext2/ext2.c:311-318 | links_count goes up by one in 16 bits and no other byte changes |
| `Ext2Structs.TableDescribed` | src/kernel/dri/fs/ext2/ext2.c:74-123 | with the encoded descriptors one behind the other from the block after the superblock on, the inode table of a group is where its descriptor says |
| `Ext2Structs.InodeDescribed` | src/kernel/dri/fs/ext2/ext2.c:187-231 | inode n is the 128 bytes at number (n - 1) % inodes_per_group of the table of group (n - 1) / inodes_per_group |
| `Ext2Structs.InodeFields` | include/kernel/dri/fs/ext2/ext2.h:131-204 | mode, size, links_count, num_blocks and the direct blocks are read where the structure has them, and the mode says directory if and only if its format is 4 |
| `Ext2Structs.DirentFields` | include/kernel/dri/fs/ext2/ext2.h:246-253 | an entry reads as the record that stands there |
| `Ext2Structs.EntryFields` | src/kernel/dri/fs/ext2/ext2.c:10-21 | the entry of a hard link has the inode number, the name up to 255 bytes, and the type that belongs to the mode |
| `Ext2Driver.Disk.LoadInodeTable` | src/kernel/dri/fs/ext2/ext2.c:74-123 | reads the start of a group's inode table |
| `Ext2Driver.Disk.GetOrSetInode` | src/kernel/dri/fs/ext2/ext2.c:187-231 | finds or stores exactly one inode; number 0 fails |
| `Ext2Driver.Disk.DirLs` | src/kernel/dri/fs/ext2/ext2.c:245-285 | the loops over blocks and entries stop at the first match of the listing |
| `Ext2Driver.Disk.DirContains` | src/kernel/dri/fs/ext2/ext2.c:639-670 | true if and only if it is a directory and some entry matches |
| `Ext2Driver.Disk.DirFind` | src/kernel/dri/fs/ext2/ext2.c:672-709 | the inode of the first match, or 0 |
| `Ext2Driver.Disk.InsertIntoDir` | src/kernel/dri/fs/ext2/ext2.c:326-412 | the disk afterwards, with room and without, and when it panics |
| `Ext2Driver.Disk.HardLink` | src/kernel/dri/fs/ext2/ext2.c:297-324 | succeeds if and only if the inode exists and no entry matches the name in a directory; what the disk holds then, and when it panics |
| `Ext2Driver.LinkedList` | src/kernel/dri/fs/ext2/ext2.c:297-324 | after a link with room the directory lists the old entries and the new one |
| `Ext2Driver.LinkThenFind` | src/kernel/dri/fs/ext2/ext2.c:297-324 | link, then find: the new name gives the inode, every listed name gives what it gave, the target has one link more, and no other inode changes |
| `Ext2Driver.LinkWithoutRoom` | src/kernel/dri/fs/ext2/ext2.c:404-411 | without room the link is reported as made and the name is not found; the disk then has the last directory block also where the block number behind those of the directory points |
| `Ext2Driver.WithoutRoomSpares` | src/kernel/dri/fs/ext2/ext2.c:404-411 | that leaves tables and inodes alone if and only if the directory block repeats those of the block it overwrites |
| `Ext2Files.FileRead` | src/kernel/dri/fs/ext2/ext2_vfs.c:36-77 | fills the buffer with the flat content from any offset on, nothing behind it changes, the size asked for is returned; exactly when it panics |
| `Ext2Files.ReadInode` | src/kernel/dri/fs/ext2/ext2.c:414-440 | the same from offset 0, for sizes up to the size of the file |
| `Ext2Files.FileReadPanicsEarlier` | src/kernel/dri/fs/ext2/ext2_vfs.c:55-73 | from offset 0, exactly beyond eleven blocks |
| `Ext2Files.ReadInodeBlock` | src/kernel/dri/fs/ext2/ext2.c:442-465 | one direct block, or a panic |
| `Reader.ReadBack` | src/lisp/lisp.c:211-279 | printed text of a clean value, anywhere in a text, reads as that value and is consumed exactly |
| `Reader.PrintRead` | src/lisp/lisp.c:211-446 | printing and reading undo each other |
| `Reader.ReadPrintRead` | src/lisp/lisp.c:400-413 | read, print, read equals read, for every text whose value has no empty list and no backslash in a string, reader macros included |
| `Reader.Read1Shaped` | src/lisp/lisp.c:288-446 | what values reading can produce at all |
| `Reader.ReadsBackIff` | src/lisp/lisp.c:211-446 | the printed text of a value reads as that value if and only if the value is clean, and is then consumed exactly |
| `Reader.CleanIs` | src/lisp/lisp.c:211-446 | the clean values are those of the shape that reading produces, less empty lists and backslashes in strings |
| `Reader.StringReadsBack` | src/lisp/lisp.c:149-209 | a string reads back if and only if it has no quote and no backslash |
| `Reader.MacroForms` | src/lisp/lisp.c:335-398 | behind each of the six reader macros a form is read as the list of its symbol and the form, and consumed exactly; for a comma unless an at sign follows |
| `Reader.CommaForm` | src/lisp/lisp.c:347-352 | a comma in front of a form is read as unquote if and only if the form does not begin with an at sign |
| `Reader.SymbolRead` | src/lisp/lisp.c:91-147 | every word of letters, digits and the sixteen signs that begins with no digit and no reader macro is read as a symbol |
| `Reader.NumberRead` | src/lisp/lisp.c:314-333 | a number below 2^32 is read as its lowest 30 bits |
| `Reader.StringRead` | src/lisp/lisp.c:149-209 | a string is read from its text, with backslashes and newlines escaped |
| `Reader.StringWritable` | src/lisp/lisp.c:149-209 | some text is read as a string if and only if the string has no double quote |
| `Reader.CommentRead` | src/lisp/lisp.c:72-89 | a form is read behind any comment |
| `Reader.SpaceRead` | src/lisp/lisp.c:72-89 | and behind any of the six kinds of white space |
| `Reader.NilReadsAsSymbol` | src/lisp/lisp.c:252-255 | nil does not |
| `Reader.PairReadsAsList` | src/lisp/lisp.c:228-251 | a dotted pair does not |
| `Reader.SkipWs` | src/lisp/lisp.c:72-89 | ends at neither space nor comment |
| `ReaderStream.IStream.SkipSpace` | src/lisp/lisp.c:72-89 | the loop stops where specified, or never, in a comment without a newline |
| `ReaderStream.IStream.ReadSymbol` | src/lisp/lisp.c:107-147 | value and stream position as specified |
| `ReaderStream.IStream.ReadString` | src/lisp/lisp.c:149-209 | the loop with its escape flag, as specified |
| `ReaderStream.IStream.ReadInteger` | src/lisp/lisp.c:314-333 | digits accumulated in 32 bits, as specified |
| `ReaderStream.IStream.ReadQuoted` | src/lisp/lisp.c:335-398 | the reader macros, as specified |
| `ReaderStream.IStream.ReadForms` | src/lisp/lisp.c:426-446 | readn: the list grown at its end is the list of all forms up to the first failure |
| `ReaderStream.IStream.ReadOne` | src/lisp/lisp.c:400-413 | the readers tried in order, as specified |
| `Scheduling.PickFirst` | src/kernel/x86_32/task.c:187-201 | the loop selects the first task after the current one that does not wait |
| `Scheduling.PickSame` | src/kernel/x86_32/task.c:187-201 | whichever runnable task shows that it ends |
| `Scheduling.StepOk` | src/kernel/x86_32/task.c:117-225 | every step keeps ids distinct and the current task in the list |
| `Scheduling.Nearer` | src/kernel/x86_32/task.c:117-209 | a switch or another task's death brings the target strictly nearer, or runs it |
| `Scheduling.Fair` | src/kernel/x86_32/task.c:69-225 | in every run a task that stays runnable is chosen within as many turns as its cyclic distance and the number of spawns together |
| `Scheduling.WithinAllTasks` | src/kernel/x86_32/task.c:69-209 | so within as many turns as there are tasks and spawns |
| `TaskList.Scheduler.constructor` | src/kernel/x86_32/task.c:14-49 | one task, which is current |
| `TaskList.Scheduler.SpawnThread` | src/kernel/x86_32/task.c:69-115 | one well-linked list with the new task at its end, under a new id |
| `TaskList.Scheduler.KillThisThread` | src/kernel/x86_32/task.c:117-153 | the current task, and only it, leaves the list; its successor or the first task is current; the last task is not killed |
| `TaskList.Scheduler.DoSwitchTask` | src/kernel/x86_32/task.c:175-209 | the loop over links reaches the task that the selection specifies |
| `TaskList.Scheduler.SetWaitingFlag` | src/kernel/x86_32/task.c:211-225 | exactly the task with this id changes |
| `TaskList.Scheduler.Unlink` | src/kernel/x86_32/task.c:117-153 | taking out any node leaves one list linked both ways, with the right ends |
| `Holes.Heap.HeapSort` | src/kernel/x86_32/kheap.c:28-45 | sifting down restores the order and moves entries only |
| `Holes.Heap.SiftUp` | src/kernel/x86_32/kheap.c:58-94 | sifting up restores the order and moves entries only |
| `Holes.Heap.HeapInsert` | src/kernel/x86_32/kheap.c:80-94 | keeps the order and adds exactly the entry, or panics when full |
| `Holes.Heap.HeapDecrease` | src/kernel/x86_32/kheap.c:58-68 | exchanges exactly the entry, and keeps the order if the key does not grow |
| `Holes.Heap.HeapDeleteRoot` | src/kernel/x86_32/kheap.c:47-56 | with two entries or more keeps the order and removes exactly the root; the size afterwards, which is right if and only if there was not exactly one |
| `Holes.Heap.HeapDelete` | src/kernel/x86_32/kheap.c:70-78 | what is left, for every index, with two entries or more; at the root the order is kept; with one entry the size is wrong |
| `Holes.Heap.HeapLookupMin` | src/kernel/x86_32/kheap.c:96-138 | in an ordered heap it succeeds if and only if the last key on the way along the smaller children is large enough; what it returns is the first that is |
| `Holes.LookupFinds` | src/kernel/x86_32/kheap.c:96-138 | from any entry of an ordered heap the walk succeeds if and only if the key at the end of that way is large enough |
| `Holes.DeletesNamed` | src/kernel/x86_32/kheap.c:70-78 | the named entry is the one removed if and only if it is the root, or the root already is what the entry is changed to |
| `Holes.DeletesRoot` | src/kernel/x86_32/kheap.c:70-78 | any other deletion takes the root out, and leaves the key 0xFFFFFFFF in the place of the entry |
| `Holes.RootSmallest` | src/kernel/x86_32/kheap.c:13-26 | in a min-heap the root is a minimum |
| `Holes.WalkMisses` | src/kernel/x86_32/kheap.c:96-138 | an ordered heap with a large enough entry that the lookup does not find |
| `Holes.SwapUp` | src/kernel/x86_32/kheap.c:80-94 | a swap with the parent moves the one fault up |
| `Holes.SwapDown` | src/kernel/x86_32/kheap.c:28-45 | a swap with the smallest child moves the one fault down |

## Left out

- Theorems.ProgramCorrect: assumes of the program that no `let1` hides a variable visible where it stands (`HiddenName`) and that every frame is large enough (exactly when: `FrameHolds`); and it says nothing about source calls that have no value, which are errors and endless recursion.
- Correctness.CorrectExpr: the same hypotheses, and an empty `progn`, `let1` or function body has no meaning in `Source`.
- Templates.BackquoteBuilds: for inserted values that are not circular; the evaluation of an inserted expression must leave existing cells as they are, and a spliced list must be new in its last cell. When splicing goes wrong is said by `MergeSplices`.
- Theorems.ApplyAgrees: the values of the direct call are compared in the heap that the call leaves; a second evaluation of the arguments could give others.
- CallList.DeepCopyCopies: of values without classes. A captured word that is no value, which the original replaces by nil with a message, has no copy.
- Correctness.ApplyClosure: a closure in the argument list is copied if all names it captured have a value in `Source`; the slot of a name that has none holds what an abandoned `let1` left there.
- CompilesFacts.CompilesIff: `gc`, `function`, `eval`, `load` and `+current-env+`, which the original accepts, are refused as not modelled, and so are default values that are not given and let1 bindings and pairs in parameter lists without a symbol in front.
- Laws.HasValue: calls, `apply` and splices may have no value.
- CodegenFacts.ParamsDeclared: lists with something behind the name that follows `&`, or a required parameter behind an optional one, are compiled as in the original and have no meaning in `Source`.
- Gc.Collector.DoGc: roots are given; the conservative scan of the stack, segments and retained arguments is not modelled. The mark must not have reached its 24-bit limit.
- Ext2Driver.Disk.HardLink: needs well-formed directory blocks (entries tile them, no inode 0) that lie apart from inode tables and descriptors; a write outside the disk has no effect.
- Ext2Driver.Disk.InsertIntoDir: the number of blocks of a directory is taken as the number of its valid directory blocks, at most twelve; the original counts 512-byte units there.
- Holes.Heap.HeapDelete: with one entry, the word in front of the array that the original reads is a parameter, and later operations on a heap of size 0xFFFFFFFF are left out.
- Holes.Heap.HeapLookupMin: without the deletion it can ask for, which is `HeapDelete` at the index found.
- Ext2Driver.Disk.DirLs: with the callback of the containment test and of the lookup only; a callback that goes on after a match is left out.
- TaskList.Scheduler.SpawnThread: ids do not wrap around; stacks, saved registers and processes are left out.
- TaskList.Scheduler.DoSwitchTask: needs a task that does not wait; without one the original loops for ever. Its panic test cannot be reached.
- Macros and macro expansion, `eval`, `load`, `gc`, `function`, `+current-env+`, and closures as literal forms: they run code at compile time or leave words on the stack.
- Default-value expressions, which the original runs at compile time: their values are a parameter of the compilation unit.
- C builtins are arbitrary pure functions of their arguments and the cells that obey the calling convention and restore the stack.
- The frames that C code has on the stack inside `apply`, and the ebx that `_call_list` overwrites: the frame of `_call_list` is modelled, that of its callers is not.
- 32-bit widths: addresses, label numbers, stack offsets and tagged integers in compiled code are unbounded. The reader and the heap keep theirs.
- A collection during a run of compiled code: the two are separate models.
- DynASM encoding, memory mapping, label growth in `nextpc`.
- Reader: growing buffers and their NUL terminators, line positions, bytes above 127, and a byte 0xFF that reads as the end.
- Printer: negative integers, closures and classes; class values in the compiler.
- `list_to_args` and `compile_expression` error texts and positions: only error codes.
- ext2: bitmaps, block and inode allocation, indirect blocks, mounting, directory entries with inode 0.
- kheap: `heap_entry_index` and the two operations that go through it.
- `alloc.c`, `sync.c`, `paging.c`, drivers, interrupts, boot code, the initial ramdisk, `vfs.c`: not part of this model.
