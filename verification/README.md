# Verified models of the collection's algorithmic cores

This project models, in Dafny 4.11, the algorithms behind a collection of small
independent programs, and proves what those programs promise. Every operation is
a function, or a method or class proved against a function, and the properties
are theorems about all inputs, all runs or all interleavings. Where a comment and
the code disagree the code is followed.

`dafny verify dfyconfig.toml` checks everything. Files are grouped by prefix:

| files | what they model |
|---|---|
| `MiniC*` | the mini-C compiler back end: resolver, legal programs and their errors, code generator, the x86-64 instructions it emits, and a machine for them |
| `Lsm*` | the LSM key-value store: record format, memtable, write-ahead log, sorted runs and their names, compaction, crashes |
| `BTree*` | the B-tree database: pages, splits, cursors, and when it is full |
| `Jit*` | the expression JIT: hand-encoded bytes, an instruction decoder and a processor |
| `Download*` | the BitTorrent worker pool, the fetching of one piece, and the bytes of its messages |
| `Linear*`, `Least*` | Gaussian elimination and ordinary least squares |
| `Hash*` | the open-addressing hash table and its primes |
| `HeapAllocator` | the first-fit allocator over a moving break |
| `Git*` | tree objects: writing, parsing, flattening, committing |
| `VirtualDom` | virtual-DOM patching |
| `Mqtt*` | topic filters and packet framing |
| `Lisp*` | the Lisp reader and printer, and a grammar of program texts |
| `Tetris*` | the board, the shapes, the seven-bag and the game |
| `Matmul` | naive, register-blocked and cache-blocked matrix products |
| `TicTacToe*` | alpha-beta search, and why the player that uses it cannot be beaten |
| `Wrappers`, `ByteStrings`, `Arithmetic`, `Decimals` | shared datatypes, bytes in strcmp order, division, printed numbers |

How the larger models are built:

* **Mini-C.** The source language has a big-step semantics with a step budget
  (`MiniCSemantics`), run either over nested scopes by name or over frame slots;
  a budget that runs out is an outcome of its own, so divergence is covered. The
  resolver is proved to keep the meaning from names to slots, the generator from
  slots to instructions. The machine is stuck on any undefined read and on any
  call with a misaligned stack (System V AMD64 ABI, section 3.2.2). External
  functions are an oracle of the call history and may destroy every register and
  everything below the stack pointer.
* **Formats.** Where bytes or characters are read or written, a theorem spells them
  out in numbers without the functions that code them: `LsmRecord.RecordBytes`,
  `JitCorrectness.VarBytes` and `NumBytes`, `DownloadWire.PieceMessage`,
  `GitTree.OneFileTree`, `MqttFrame.BuildBytes`, and the grammar of `LispSource`.
* **LSM.** A directory is a map from run id to file bytes, plus the bytes of the
  log. Each method records in a ghost trail every directory state it passes
  through, and is tied to the crash states of the model by `Took`. The map of the
  open store (`Memory`) and the map the directory would open to (`Contents`) are
  kept apart: they agree while the log has every write, and again after a flush.
* **Hash table.** The operations are functions of the base size and the buckets,
  `None` for one that runs forever; the class computes them in an array.
* **Download.** Each routine's steps are functions of the shared state; a run is
  any sequence of possible steps, so theorems about runs hold in every
  interleaving.
* **False as stated, with the exact condition.** Each of these comes with an input
  that shows it and a condition that holds if and only if the code does what is
  meant:
  * patching does not always produce the new tree: `VirtualDom.PatchExact`, and
    `ThreeGainsFail` for a tree on which it does not;
  * operations on the hash table do not always end: `HashBuckets.EndsExactly`,
    `HashGrowth.InsertEnds` and `DeleteEnds`, and `TombstonesLoop` and
    `FullStepLoops` for two tables on which they run forever; an operation that
    rebuilds the table ends if the keys in play have no step of the bucket count,
    as `LettersStride` decides for the keys of one small letter;
  * a large request wraps before sbrk and breaks the heap:
    `HeapAllocator.TilesExactly` and `ClearExactly`, and `AskForLargest`;
  * a write after a torn log tail can be lost: `LsmCrash.WritesSurviveExactly`, and
    `SomeWriteIsLost` for one behind every such tail;
  * the directory scan misreads long ids: `LsmNames.ScanReads`, and
    `MillionIsMisread`;
  * the byte count does not tell that a piece is complete:
    `DownloadPiece.CompleteExactly`, and `RepeatedBlock`;
  * a record does not always survive its encoding: `LsmRecord.RoundTrip`, and
    `LongKeyIsLost`;
  * nor does a packet its framing: `MqttFrame.FrameRoundTrip`, and `MisfitsFail`;
  * a JIT result without division does not always equal the evaluator's:
    `JitCorrectness.JitModulo`, and `SquareWraps`.
* **Elimination** rejects some regular systems (`LinearSolve.SmallIsRejected`). It
  completes or not whatever the right-hand side is; it never completes on a
  singular matrix and always on one that is not singular up to 1e-12
  (`LinearSolve.Solve`). Between the two the pivots decide, as `NearIsSolved` shows.
* **B-tree.** A new id is never refused below 2792 rows (`BTreeView.RunContent`);
  no larger bound holds for every order of insertion (`BTreeCapacity.FullAtCapacity`).
* **Tic-tac-toe.** The value of the empty board is not computed by search: a weight
  of the lines the opponent may still complete settles nearly all positions, and
  symmetry most of the rest.

## Model

| member | source | states |
|---|---|---|
| MiniCCompiler.SameReturn | 2026-09-03-cpp-mini-c-compiler/src/codegen.cpp:51-294 | for every accepted program, a call returns v with a given trace of external calls if and only if the emitted code does, with the caller's stack and frame pointer restored |
| MiniCCompiler.SameFault | 2026-09-03-cpp-mini-c-compiler/src/codegen.cpp:213-251 | the source divides by zero (or overflows the quotient) with a given trace if and only if the machine traps with that trace |
| MiniCCompiler.SameDivergence | 2026-09-03-cpp-mini-c-compiler/src/codegen.cpp:117-148 | the source runs forever if and only if the machine does |
| MiniCCompiler.SamePrefix | 2026-09-03-cpp-mini-c-compiler/src/codegen.cpp:278-294 | in a run without end every trace the source reaches is reached by the machine |
| MiniCCompiler.ShownBySource | 2026-09-03-cpp-mini-c-compiler/src/codegen.cpp:278-294 | and whatever trace the machine shows after k steps begins the trace the source shows with budget k, so the two endless traces are the same |
| MiniCCompiler.NeverStuck | 2026-09-03-cpp-mini-c-compiler/src/codegen.cpp:51-71 | no run of emitted code reads an undefined register or cell, jumps outside the code, or calls with a misaligned stack |
| MiniCCompiler.NeverWrong | 2026-09-03-cpp-mini-c-compiler/src/resolver.cpp:96-198 | an accepted program reads no undeclared variable and has no stray break or continue |
| MiniCCompiler.Simulates | 2026-09-03-cpp-mini-c-compiler/src/codegen.cpp:18-30 | the simulation behind these: one run of the source by name is matched by a run of the linked code, whatever way it ends |
| MiniCCompiler.Compiles | 2026-09-03-cpp-mini-c-compiler/src/codegen.cpp:18-30 | whatever the resolver accepts can be emitted and linked |
| MiniCCompiler.Compile | 2026-09-03-cpp-mini-c-compiler/src/resolver.cpp:22-27 | the driver succeeds exactly on the legal programs and returns the linked code of the resolved tree; it refuses a program only for an error the program has |
| MiniCLegal.ResolvesExactly | 2026-09-03-cpp-mini-c-compiler/src/resolver.cpp:22-198 | the resolver accepts a program if and only if it is legal: at most six parameters, declarations that agree, one body a name, no name declared twice in one block, every variable declared before its use in a block around it, calls that fit, break and continue in loops; said of the tree and sets of names |
| MiniCLegal.StmtLegal | 2026-09-03-cpp-mini-c-compiler/src/resolver.cpp:96-158 | a statement is accepted exactly when it is legal where it stands, and adds exactly its declarations; an outer name may be hidden |
| MiniCLegal.ExprLegal | 2026-09-03-cpp-mini-c-compiler/src/resolver.cpp:160-198 | an expression is accepted exactly when its variables are in sight and its calls fit a declaration |
| MiniCLegal.CollectExactly | 2026-09-03-cpp-mini-c-compiler/src/resolver.cpp:36-55 | the signature table is built exactly when the declarations agree, and holds exactly them |
| MiniCFaults.ErrorMeans | 2026-09-03-cpp-mini-c-compiler/src/resolver.cpp:22-198 | every error the resolver reports is one the program has, of that kind and about that name |
| MiniCFaults.StmtFault | 2026-09-03-cpp-mini-c-compiler/src/resolver.cpp:96-158 | the error reported for a statement is in that statement, with the names in sight there |
| MiniCCompiler.ArgumentRegisters | 2026-09-03-cpp-mini-c-compiler/src/codegen.cpp:284-286 | six arguments are in edi, esi, edx, ecx, r8d and r9d, in that order |
| MiniCSimulation.ExprSim | 2026-09-03-cpp-mini-c-compiler/src/codegen.cpp:160-202 | emitted expression code leaves the value in eax, keeps the tracked depth, every slot and everything above, or faults or stays running with the source |
| MiniCSimulation.ArgsSim | 2026-09-03-cpp-mini-c-compiler/src/codegen.cpp:278-283 | arguments are evaluated left to right and left on the stack in order |
| MiniCSimulation.PopsRun | 2026-09-03-cpp-mini-c-compiler/src/codegen.cpp:284-286 | the pops put each argument into its own ABI register |
| MiniCSimulation.TransferSim | 2026-09-03-cpp-mini-c-compiler/src/codegen.cpp:287-294 | at the call the stack is a multiple of 16; a defined callee or an external one returns with slots and depth intact |
| MiniCSimulation.CallExprSim | 2026-09-03-cpp-mini-c-compiler/src/codegen.cpp:278-294 | a call expression pads for alignment exactly when the tracked depth is odd and undoes it |
| MiniCSimulation.CallSim | 2026-09-03-cpp-mini-c-compiler/src/codegen.cpp:51-71 | prologue, parameter stores, body and epilogue of a function compute its call; falling off the end returns 0 |
| MiniCSimulation.StmtSim | 2026-09-03-cpp-mini-c-compiler/src/codegen.cpp:73-158 | statement code does what the statement does: falls through, returns, breaks or continues to the right label of the innermost loop, faults or keeps running |
| MiniCSimulation.LoopSim | 2026-09-03-cpp-mini-c-compiler/src/codegen.cpp:117-148 | while and for loops, every round through the start label, so an endless source loop is an endless run |
| MiniCExec.BinaryRuns | 2026-09-03-cpp-mini-c-compiler/src/codegen.cpp:213-251 | each binary operator's instructions compute its 32-bit wrapped value, or trap |
| MiniCExec.UnaryRuns | 2026-09-03-cpp-mini-c-compiler/src/codegen.cpp:189-202 | each unary operator's instructions compute its value |
| MiniCExec.CompareDecides | 2026-09-03-cpp-mini-c-compiler/src/codegen.cpp:253-263 | the flags of cmp under the chosen condition decide the signed comparison, overflow included |
| MiniCExec.IDivStep | 2026-09-03-cpp-mini-c-compiler/src/codegen.cpp:225-230 | idiv of the sign-extended dividend truncates and traps exactly on 0 and on the one quotient that does not fit |
| MiniCWord.DivisionMeans | 2026-09-03-cpp-mini-c-compiler/src/codegen.cpp:225-230 | quotient times divisor plus remainder is the dividend; the remainder is smaller than the divisor and has the sign of the dividend |
| MiniCWord.WrapMeans | 2026-09-03-cpp-mini-c-compiler/src/codegen.cpp:213-251 | wrapping changes a number by a multiple of 2^32 |
| MiniCLink.ExprLabels | 2026-09-03-cpp-mini-c-compiler/src/codegen.cpp:265-276 | an expression places each of its labels once, within its own range of numbers |
| MiniCLink.StmtLabels | 2026-09-03-cpp-mini-c-compiler/src/codegen.cpp:73-158 | so does a statement |
| MiniCLink.ProgramLabels | 2026-09-03-cpp-mini-c-compiler/src/codegen.cpp:18-30 | no label of a whole program is placed twice, function labels only for definitions |
| MiniCLink.FoundAt | 2026-09-03-cpp-mini-c-compiler/src/codegen.cpp:18-30 | a label placed once is found where it is placed |
| MiniCLink.Links | 2026-09-03-cpp-mini-c-compiler/src/codegen.cpp:18-30 | linking the emitted code meets every assumption of the simulation |
| MiniCScoping.DeclareOk | 2026-09-03-cpp-mini-c-compiler/src/resolver.cpp:79-86 | a declaration gets the next slot down, apart from every slot in scope, and the high-water mark covers it |
| MiniCScoping.StatementOk | 2026-09-03-cpp-mini-c-compiler/src/resolver.cpp:96-154 | resolving a statement keeps every visible variable on a slot of its own inside the frame, restores scopes and loop depth, and produces only what the generator can emit |
| MiniCScoping.MatchRead | 2026-09-03-cpp-mini-c-compiler/src/resolver.cpp:88-94 | reading a name through nested scopes and reading its slot give the same value |
| MiniCScoping.MatchWrite | 2026-09-03-cpp-mini-c-compiler/src/resolver.cpp:88-94 | writing through a slot changes that name and no other visible one |
| MiniCScoping.MatchDeclare | 2026-09-03-cpp-mini-c-compiler/src/resolver.cpp:79-86 | giving a new name a fresh slot disturbs no other visible variable, shadowed ones included |
| MiniCScoping.ExprResolves | 2026-09-03-cpp-mini-c-compiler/src/resolver.cpp:156-198 | a resolved expression evaluates as the named one, with the same trace |
| MiniCScoping.StmtResolves | 2026-09-03-cpp-mini-c-compiler/src/resolver.cpp:96-154 | so does a resolved statement |
| MiniCScoping.LoopResolves | 2026-09-03-cpp-mini-c-compiler/src/resolver.cpp:119-138 | and a resolved loop |
| MiniCScoping.CallResolves | 2026-09-03-cpp-mini-c-compiler/src/resolver.cpp:57-76 | calls of a resolved program equal calls of the source program, and are never wrong |
| MiniCScoping.CollectOk | 2026-09-03-cpp-mini-c-compiler/src/resolver.cpp:36-55 | signatures agree with every declaration, and no name is defined twice |
| MiniCScoping.ProgramOk | 2026-09-03-cpp-mini-c-compiler/src/resolver.cpp:57-76 | a resolved program's frames hold all its slots and its calls fit the argument registers |
| MiniCResolver.Resolver.CollectSignatures | 2026-09-03-cpp-mini-c-compiler/src/resolver.cpp:36-55 | fills the signature table as specified, with the same first error |
| MiniCResolver.Resolver.DeclareVariable | 2026-09-03-cpp-mini-c-compiler/src/resolver.cpp:79-86 | declares in the innermost scope at the next offset and updates the high-water mark, or reports the redeclaration |
| MiniCResolver.Resolver.LookupVariable | 2026-09-03-cpp-mini-c-compiler/src/resolver.cpp:88-94 | finds the innermost declaration |
| MiniCResolver.Resolver.ResolveExpr | 2026-09-03-cpp-mini-c-compiler/src/resolver.cpp:156-198 | resolves an expression as specified, same error |
| MiniCResolver.Resolver.ResolveStmt | 2026-09-03-cpp-mini-c-compiler/src/resolver.cpp:96-154 | resolves a statement as specified and leaves scopes, offset, mark and loop depth in the specified state |
| MiniCResolver.Resolver.ResolveFor | 2026-09-03-cpp-mini-c-compiler/src/resolver.cpp:127-138 | the for statement's own scope and loop |
| MiniCResolver.Resolver.ResolveItems | 2026-09-03-cpp-mini-c-compiler/src/resolver.cpp:145-150 | a list of statements, stopping at the first error |
| MiniCResolver.Resolver.ResolveFunction | 2026-09-03-cpp-mini-c-compiler/src/resolver.cpp:57-76 | one function: parameters, body, frame size |
| MiniCResolver.Resolver.Run | 2026-09-03-cpp-mini-c-compiler/src/resolver.cpp:22-27 | the whole program, as specified |
| MiniCCodegen.Codegen.EmitExpression | 2026-09-03-cpp-mini-c-compiler/src/codegen.cpp:160-187 | appends exactly the specified code, advances the label counter, keeps the tracked depth |
| MiniCCodegen.Codegen.EmitBinary | 2026-09-03-cpp-mini-c-compiler/src/codegen.cpp:213-251 | left pushed, right computed, popped and combined |
| MiniCCodegen.Codegen.EmitLogical | 2026-09-03-cpp-mini-c-compiler/src/codegen.cpp:265-276 | short-circuit jumps and normalised result |
| MiniCCodegen.Codegen.EmitArguments | 2026-09-03-cpp-mini-c-compiler/src/codegen.cpp:278-283 | pushes every argument and counts it |
| MiniCCodegen.Codegen.EmitCall | 2026-09-03-cpp-mini-c-compiler/src/codegen.cpp:278-294 | arguments, pops, padding, call |
| MiniCCodegen.Codegen.EmitStatement | 2026-09-03-cpp-mini-c-compiler/src/codegen.cpp:73-158 | appends the specified code and restores the loop stack and depth |
| MiniCCodegen.Codegen.EmitIf | 2026-09-03-cpp-mini-c-compiler/src/codegen.cpp:101-116 | both branches and their labels |
| MiniCCodegen.Codegen.EmitWhile | 2026-09-03-cpp-mini-c-compiler/src/codegen.cpp:117-129 | the while loop and its labels |
| MiniCCodegen.Codegen.EmitFor | 2026-09-03-cpp-mini-c-compiler/src/codegen.cpp:130-148 | the for loop and its continue label |
| MiniCCodegen.Codegen.EmitBlock | 2026-09-03-cpp-mini-c-compiler/src/codegen.cpp:98-100 | statements in order |
| MiniCCodegen.Codegen.EmitFunctionDecl | 2026-09-03-cpp-mini-c-compiler/src/codegen.cpp:51-71 | label, prologue, parameter stores, body, epilogue |
| MiniCCodegen.Codegen.EmitWholeProgram | 2026-09-03-cpp-mini-c-compiler/src/codegen.cpp:18-30 | every definition in order |
| LsmRecord.RoundTrip | 2026-09-02-c-lsm-kv-store/src/record.c:6-65 | a record reads back as written if and only if its lengths fit in 32 bits |
| LsmRecord.RecordBytes | 2026-09-02-c-lsm-kv-store/src/record.c:6-24 | the bytes of a record: 80 or 68, the length of the key in four bytes with the low one first, the key, and for a put the same of the value |
| LsmRecord.LongKeyIsLost | 2026-09-02-c-lsm-kv-store/src/record.c:6-24 | a put whose key has 2^32 bytes is written with length 0 and read back with an empty key |
| LsmRecord.TornParse | 2026-09-02-c-lsm-kv-store/src/record.c:26-65 | reading any prefix of a file of records yields exactly the records that lie in it whole; it is clean only at a record boundary |
| LsmRecord.ParseAll | 2026-09-02-c-lsm-kv-store/src/record.c:26-65 | a file of records reads back as those records |
| LsmRecord.RecordWrite | 2026-09-02-c-lsm-kv-store/src/record.c:6-24 | appends exactly the encoding |
| LsmRecord.ReadFile | 2026-09-02-c-lsm-kv-store/src/wal.c:33-52 | the read loop returns the parse of the file |
| LsmMemtable.InsertSorted | 2026-09-02-c-lsm-kv-store/src/memtable.c:35-64 | insertion keeps the keys strictly ascending |
| ByteStrings.LessMeans | 2026-09-02-c-lsm-kv-store/src/memtable.c:27 | one key is before another exactly if at the first difference it ends or has the smaller byte |
| LsmMemtable.InsertLayer | 2026-09-02-c-lsm-kv-store/src/memtable.c:35-64 | and updates the map the entries stand for |
| LsmMemtable.FindAt | 2026-09-02-c-lsm-kv-store/src/memtable.c:66-75 | a key is present exactly when it stands at its lower bound |
| LsmMemtable.Memtable.Bound | 2026-09-02-c-lsm-kv-store/src/memtable.c:23-33 | binary search returns the lower bound |
| LsmMemtable.Memtable.Put | 2026-09-02-c-lsm-kv-store/src/memtable.c:35-64 | shifting in place is insertion into the map |
| LsmMemtable.Memtable.Get | 2026-09-02-c-lsm-kv-store/src/memtable.c:66-75 | returns the map's answer: value, tombstone or absent |
| LsmDisk.WrittenFile | 2026-09-02-c-lsm-kv-store/src/sstable.c:11-41 | a written run parses back, sorted and complete |
| LsmDisk.WrittenLayer | 2026-09-02-c-lsm-kv-store/src/sstable.c:11-41 | and stands for the memtable's map; without tombstones for the live part |
| LsmDisk.ContentsBound | 2026-09-02-c-lsm-kv-store/src/store.c:149-180 | what the directory means does not depend on how far above the newest id one looks |
| LsmDisk.ReplayInOrder | 2026-09-02-c-lsm-kv-store/src/sstable.c:123-147 | replaying records that are in key order keeps them as they are |
| LsmDisk.LogAppend | 2026-09-02-c-lsm-kv-store/src/wal.c:21-31 | after a record appended in whole or in part, a log that ends between records parses to its records and the new one, or to its records alone |
| LsmRecord.ParseAppend | 2026-09-02-c-lsm-kv-store/src/record.c:26-65 | a file and what is appended to it read as the whole records, then its tail and the rest as one text |
| LsmRecord.TailSwallows | 2026-09-02-c-lsm-kv-store/src/record.c:26-65 | behind a torn tail at most one of two puts that differ in their last byte is read back |
| LsmDisk.LogTorn | 2026-09-02-c-lsm-kv-store/src/wal.c:33-52 | a torn last record loses only itself |
| LsmCrash.RunContents | 2026-09-02-c-lsm-kv-store/src/store.c:74-180 | after any sequence of put, del, flush, compact and reopen the directory means exactly the plain map of the same operations |
| LsmCrash.CrashSafe | 2026-09-02-c-lsm-kv-store/src/store.c:74-147 | after any run and a crash at any point of the next operation, opening yields the map before or after that operation, and only a write makes a difference |
| LsmCrash.FlushPoints | 2026-09-02-c-lsm-kv-store/src/store.c:74-100 | between writing the run and truncating the log the map is the same |
| LsmCrash.CompactPoints | 2026-09-02-c-lsm-kv-store/src/store.c:102-129 | with any number of the oldest runs removed the map is the same, though tombstones were dropped |
| LsmCrash.NewerPart | 2026-09-02-c-lsm-kv-store/src/store.c:118-126 | the runs left, removed oldest first, agree with all of them wherever they say anything |
| LsmCrash.LoggedContents | 2026-09-02-c-lsm-kv-store/src/store.c:131-147 | a logged record is that operation on the map |
| LsmCrash.TornContents | 2026-09-02-c-lsm-kv-store/src/wal.c:21-31 | a partly appended record changes nothing |
| LsmCrash.StepContents | 2026-09-02-c-lsm-kv-store/src/store.c:131-147 | each operation changes the map as specified and leaves a clean log |
| LsmCrash.FlushCrashSafe | 2026-09-02-c-lsm-kv-store/src/store.c:74-100 | every crash state of a flush means the same map |
| LsmCrash.CompactCrashSafe | 2026-09-02-c-lsm-kv-store/src/store.c:102-129 | every crash state of a compaction means the same map |
| LsmCrash.AfterFlushOk | 2026-09-02-c-lsm-kv-store/src/store.c:74-100 | a flush of a non-empty memtable also heals a torn log |
| LsmCrash.WritesSurviveExactly | 2026-09-02-c-lsm-kv-store/src/wal.c:8-12 | every write that fits is seen by the next opening if and only if the log ends between two records |
| LsmCrash.SomeWriteIsLost | 2026-09-02-c-lsm-kv-store/src/wal.c:8-12 | behind any torn tail, for any key, there is a one-byte value whose write the next opening does not show |
| LsmCrash.CrashTears | 2026-09-02-c-lsm-kv-store/src/wal.c:21-31 | a crash inside any append leaves such a tail |
| LsmCrash.FromEmpty | 2026-09-02-c-lsm-kv-store/src/store.c:16-62 | a store that began empty means the plain map of its operations, with or without the one a crash interrupted |
| LsmSizes.StaysSmall | 2026-09-02-c-lsm-kv-store/src/store.c:74-147 | from an empty store no operation leaves more than two runs, or more than three keys in the log |
| LsmSizes.WriteSize | 2026-09-02-c-lsm-kv-store/src/store.c:131-147 | a write is logged, and flushed exactly when the log then holds four keys |
| LsmSizes.FlushSize | 2026-09-02-c-lsm-kv-store/src/store.c:74-129 | a flush empties the log and adds a run; a third run is merged with the others into one |
| LsmSizes.NoTombstones | 2026-09-02-c-lsm-kv-store/src/sstable.c:123-147 | a compacted run holds no tombstone |
| LsmCrash.CompactOver | 2026-09-02-c-lsm-kv-store/src/store.c:102-129 | the runs mean the same at every point of a compaction under any newer memtable, not only the log |
| LsmCrash.FlushOver | 2026-09-02-c-lsm-kv-store/src/store.c:74-100 | a memtable turned into the newest run means the same, whatever the log holds |
| LsmStore.WriteSstable | 2026-09-02-c-lsm-kv-store/src/sstable.c:11-41 | writes the run and its index of key offsets |
| LsmStore.OpenSstable | 2026-09-02-c-lsm-kv-store/src/sstable.c:47-78 | fails exactly when the file ends in a torn record; rebuilds the index of a sound run |
| LsmStore.GetSstable | 2026-09-02-c-lsm-kv-store/src/sstable.c:88-121 | binary search over the index and one read return the run's answer |
| LsmStore.ReplayInto | 2026-09-02-c-lsm-kv-store/src/sstable.c:123-147 | pours a run into a memtable, later entries winning |
| LsmStore.KvOpen | 2026-09-02-c-lsm-kv-store/src/store.c:16-62 | fails exactly when some run is torn; otherwise, whatever the order of the listing and the tail of the log, it indexes every run under the first six digits of its id, in the order of those, takes the next id above them all, and replays the log; if all ids have six digits the store stands for the directory |
| LsmStore.SortById | 2026-09-02-c-lsm-kv-store/src/store.c:12-14 | the same runs in id order |
| LsmNames.ScanReads | 2026-09-02-c-lsm-kv-store/src/store.c:30-42 | scanning the printed name of a run gives the first six digits of its id, so the id if and only if it has no more |
| LsmNames.NameSpells | 2026-09-02-c-lsm-kv-store/src/sstable.c:12 | the name of a run below a million is the six digits of its id and ".sst" |
| LsmNames.PaddedValue | 2026-09-02-c-lsm-kv-store/src/sstable.c:11-13 | the printed name reads back as the id it was printed from, zeros in front notwithstanding |
| Decimals.DecimalValue | 2026-09-02-c-lsm-kv-store/src/store.c:30-32 | a printed number reads back as itself |
| LsmNames.MillionIsMisread | 2026-09-02-c-lsm-kv-store/src/store.c:30-42 | run 1000000 is read as 100000, below 999999 |
| LsmStore.NewestWins | 2026-09-02-c-lsm-kv-store/src/store.c:149-180 | the first run from the newest that knows a key decides its value |
| LsmStore.Store.SyncedMemory | 2026-09-02-c-lsm-kv-store/src/store.c:16-62 | while the log has every write, the open store means what its directory would open to |
| LsmStore.Store.Get | 2026-09-02-c-lsm-kv-store/src/store.c:149-180 | returns exactly what the map of the open store has |
| LsmStore.Store.KvPut | 2026-09-02-c-lsm-kv-store/src/store.c:131-138 | the map of the open store gains the pair whatever the log looks like; on a log that ends between records it is one step of the directory, passing only through its crash states |
| LsmStore.Store.KvDel | 2026-09-02-c-lsm-kv-store/src/store.c:140-147 | likewise for a deletion |
| LsmStore.Store.KvFlush | 2026-09-02-c-lsm-kv-store/src/store.c:74-100 | keeps the map of the store; afterwards the directory means that map and its log is whole, even if it was torn; a step of the directory if the log had all the writes |
| LsmStore.Store.KvCompact | 2026-09-02-c-lsm-kv-store/src/store.c:102-129 | keeps the map of the store; one step of the directory, runs removed one by one from the oldest |
| LsmStore.Store.Merge | 2026-09-02-c-lsm-kv-store/src/sstable.c:123-147 | merges all runs, newest winning |
| BTreeView.InsertContent | 2026-10-05-c-simple-database/db.c:325-332 | an insertion updates the map of rows; a duplicate or a full table changes nothing; duplicate exactly when the id is there |
| BTreeView.InsertShape | 2026-10-05-c-simple-database/db.c:237-323 | and keeps the tree valid: sorted leaves, ascending separators that bound them |
| BTreeView.SplitShape | 2026-10-05-c-simple-database/db.c:273-323 | a split leaf and its new separator fit between the old separators |
| BTreeView.Lookup | 2026-10-05-c-simple-database/db.c:167-195 | a key is in the table exactly when it stands at its lower bound in the leaf it routes to |
| BTreeView.FlatAscending | 2026-10-05-c-simple-database/db.c:197-216 | the leaves from left to right are in strictly increasing key order |
| BTreeView.RunContent | 2026-10-05-c-simple-database/db.c:325-332 | after any insertions the table is valid and holds exactly the accepted rows; every answer was right: duplicate exactly when the id was there, full only for a new id in a table of at least 2792 rows |
| BTreeView.FullSize | 2026-10-05-c-simple-database/db.c:273-276 | an insertion is refused only when the table holds at least 2792 rows |
| BTreeView.InsertFilled | 2026-10-05-c-simple-database/db.c:237-323 | no insertion leaves a leaf under half full beside another leaf |
| BTreeCapacity.FullAtCapacity | 2026-10-05-c-simple-database/db.c:269-332 | the bound is reached: of rows in increasing id order exactly the first 2792 are accepted, and the next one is refused |
| BTreePages.RootSplit | 2026-10-05-c-simple-database/db.c:237-270 | the pages after a root split hold the split tree: children, key, leaf chain |
| BTreePages.LeafSplit | 2026-10-05-c-simple-database/db.c:273-323 | so do the pages after a leaf split, with the new page right after the old one among the children and in the chain |
| BTreePages.WriteLeaf | 2026-10-05-c-simple-database/db.c:227-232 | writing one leaf page changes one leaf |
| BTreePages.SplitRootShows | 2026-10-05-c-simple-database/db.c:301-321 | the root's children stay distinct and its keys are the separators |
| BTreeTable.LeafLowerBound | 2026-10-05-c-simple-database/db.c:167-174 | binary search over a leaf returns the lower bound |
| BTreeTable.InternalChildIndex | 2026-10-05-c-simple-database/db.c:176-183 | binary search over the root returns the child a key routes to |
| BTreeTable.Merged | 2026-10-05-c-simple-database/db.c:246-255 | the temporary copy is the full leaf with the new cell in place |
| BTreeTable.AddChild | 2026-10-05-c-simple-database/db.c:301-321 | finds the leaf's slot, shifts, and registers the new page after it |
| BTreeTable.Table.TableFind | 2026-10-05-c-simple-database/db.c:186-195 | the page, leaf and cell of a key |
| BTreeTable.Table.LeafInsert | 2026-10-05-c-simple-database/db.c:227-232 | shifting cells in place is insertion at the position |
| BTreeTable.Table.SplitRoot | 2026-10-05-c-simple-database/db.c:237-270 | the table then holds the split tree |
| BTreeTable.Table.SplitLeaf | 2026-10-05-c-simple-database/db.c:273-323 | likewise, or answers full and changes nothing exactly when no key slot or page is left |
| BTreeTable.Table.Insert | 2026-10-05-c-simple-database/db.c:325-332 | performs exactly the specified insertion and gives its answer |
| BTreeTable.Table.constructor | 2026-10-05-c-simple-database/db.c:141-153 | a new database is a valid empty table |
| BTreeCursor.Cursor.Advance | 2026-10-05-c-simple-database/db.c:209-216 | moves to the next cell along the leaf chain; at the end exactly when all cells were passed |
| BTreeCursor.Cursor.Value | 2026-10-05-c-simple-database/db.c:205-207 | the row under the cursor is the next in order |
| BTreeCursor.Select | 2026-10-05-c-simple-database/db.c:373-380 | a scan returns every row in order |
| BTreeCursor.Find | 2026-10-05-c-simple-database/db.c:382-395 | returns the row with an id, if the table has it |
| BTreeCursor.ScanLists | 2026-10-05-c-simple-database/db.c:373-380 | so after any insertions a scan lists exactly the accepted rows by increasing id |
| JitCorrectness.JitExact | 2026-09-09-python-x86-jit/src/codegen.py:63-98 | if every value on the way fits in 64 bits, running the compiled bytes returns the evaluator's value with the stack as it was, and faults exactly when the evaluator divides by zero |
| JitCorrectness.FillSlots | 2026-09-09-python-x86-jit/src/jit.py:33-39 | the array a call passes: word i is for the letter with code 97 + i, its wrapped value or 0 |
| JitCorrectness.VarBytes | 2026-09-09-python-x86-jit/src/codegen.py:34-60 | the bytes of a variable: 48 8B 87, eight times its place in the alphabet in four bytes, 50 |
| JitCorrectness.NumBytes | 2026-09-09-python-x86-jit/src/codegen.py:21-31 | the bytes of a number: 48 B8, its low 64 bits with the low byte first, 50 |
| JitCorrectness.JitModulo | 2026-09-09-python-x86-jit/src/codegen.py:63-98 | without division the result is congruent modulo 2^64, and equal if and only if the evaluator's own result fits |
| JitCorrectness.SquareWraps | 2026-09-09-python-x86-jit/src/codegen.py:46 | 4294967296 * 4294967296: the evaluator gives 2^64, the compiled function 0 |
| JitCorrectness.FunctionRuns | 2026-09-09-python-x86-jit/src/codegen.py:92-98 | with no condition at all, the bytes return the wrapped value to the caller or fault, changing only rax, rbx, rdx and the stack below |
| JitCorrectness.ExprRuns | 2026-09-09-python-x86-jit/src/codegen.py:63-89 | the code of an expression, wherever it stands, pushes exactly its value and keeps the rest |
| JitCorrectness.TailRuns | 2026-09-09-python-x86-jit/src/codegen.py:77-87 | pop both, combine, push: operands in the right order for every operator |
| JitCorrectness.DivRuns | 2026-09-09-python-x86-jit/src/codegen.py:82-84 | cqo and idiv divide the word toward zero, or fault |
| JitCorrectness.ValueExact | 2026-09-09-python-x86-jit/src/interpreter.py:17-36 | wrapping evaluation equals exact evaluation when all values fit |
| JitCorrectness.ValueModulo | 2026-09-09-python-x86-jit/src/interpreter.py:17-36 | and equals it modulo 2^64 without division |
| JitCorrectness.QuotientAbs | 2026-09-09-python-x86-jit/src/interpreter.py:12-14 | the evaluator's division by absolute values is division toward zero |
| JitCorrectness.QuotientRange | 2026-09-09-python-x86-jit/src/codegen.py:47-48 | the only quotient of two words that is not a word is -2^63 / -1 |
| JitCorrectness.WrapMul | 2026-09-09-python-x86-jit/src/codegen.py:46 | wrapping multiplication respects congruence |
| JitCompiler.ImmCode | 2026-09-09-python-x86-jit/src/codegen.py:29-31 | the bytes of mov rax, imm64 decode to that instruction with the wrapped immediate |
| JitCompiler.MemCode | 2026-09-09-python-x86-jit/src/codegen.py:34-38 | the bytes of mov rax, [rdi + disp32] decode to that load |
| JitCompiler.WideCodes | 2026-09-09-python-x86-jit/src/codegen.py:44-49 | the ModRM bytes of add, sub, neg and idiv name the intended registers |
| JitCompiler.OtherCodes | 2026-09-09-python-x86-jit/src/codegen.py:46-47 | so do those of imul and cqo |
| JitCompiler.OneByteCodes | 2026-09-09-python-x86-jit/src/codegen.py:41-50 | and push, pop and ret |
| JitCompiler.Buffer.Emit | 2026-09-09-python-x86-jit/src/codegen.py:63-89 | appends exactly the node's code |
| JitCompiler.CompileToMachineCode | 2026-09-09-python-x86-jit/src/codegen.py:92-98 | the function body is that code and pop, ret |
| JitMachine.BytesRoundTrip | 2026-09-09-python-x86-jit/src/codegen.py:21-26 | little-endian immediates read back |
| DownloadPool.OnePlace | 2026-08-22-go-bittorrent-client/client/download.go:40-112 | in every interleaving each piece is in exactly one of the queue, one worker, the results and the received list; no channel is over-full and nothing panics |
| DownloadPool.SendsGoThrough | 2026-08-22-go-bittorrent-client/client/download.go:91-110 | putting a piece back and delivering one never block, and the queue is never closed then |
| DownloadPool.ReturnedVerified | 2026-08-22-go-bittorrent-client/client/download.go:50-60 | when the download returns, every piece was received and its range of the buffer has the listed hash |
| DownloadPool.ReturnedContent | 2026-08-22-go-bittorrent-client/client/download.go:50-60 | so if no other bytes have those hashes the buffer is the file |
| DownloadWire.TorrentContent | 2026-08-22-go-bittorrent-client/client/download.go:50-60 | if the torrent lists the hashes of the file cut into pieces, in order, and no other bytes have them, the buffer is the file |
| DownloadPool.OnlyStuckWhenAllGone | 2026-08-22-go-bittorrent-client/client/download.go:77-112 | nothing can move only when the download has returned or every worker has exited with pieces still queued |
| DownloadPool.StepInv | 2026-08-22-go-bittorrent-client/client/download.go:77-112 | every step of every routine keeps the conservation invariant |
| DownloadPool.RunInv | 2026-08-22-go-bittorrent-client/client/download.go:35-61 | so every run does |
| DownloadPool.CollectInv | 2026-08-22-go-bittorrent-client/client/download.go:53-56 | copying a piece leaves the other verified ranges alone |
| DownloadPool.PieceInside | 2026-08-22-go-bittorrent-client/client/download.go:68-75 | every piece is a non-empty range inside the file |
| DownloadPool.Disjoint | 2026-08-22-go-bittorrent-client/client/download.go:68-75 | different pieces do not overlap |
| DownloadPool.Covers | 2026-08-22-go-bittorrent-client/client/download.go:68-75 | every byte belongs to a piece |
| DownloadPiece.ParsePiece | 2026-08-22-go-bittorrent-client/p2p/message.go:125-146 | copies a block in place, or refuses a message for another piece or out of range and copies nothing |
| DownloadWire.PieceMessage | 2026-08-22-go-bittorrent-client/p2p/message.go:96-146 | a piece message is taken if and only if its index is this piece and its block lies inside; numbers are big-endian in four bytes, reduced to 32 bits; any other is refused |
| DownloadWire.ServedPiece | 2026-08-22-go-bittorrent-client/client/download.go:114-155 | the answers of a peer that sends what each request asks for assemble to the piece, for every content |
| DownloadWire.RequestAt | 2026-08-22-go-bittorrent-client/client/download.go:122-134 | request i asks for 16384 bytes from 16384 * i on, or for what is left of the piece |
| DownloadPiece.Client.Fill | 2026-08-22-go-bittorrent-client/client/download.go:121-133 | sends consecutive full-sized blocks until five are outstanding or all are requested |
| DownloadPiece.Client.DownloadPiece | 2026-08-22-go-bittorrent-client/client/download.go:114-155 | the requests are the blocks of the piece in order, at most five ahead, none before an unchoke; success returns what the messages assemble to, of at least the length of the piece |
| DownloadPiece.HonestPiece | 2026-08-22-go-bittorrent-client/client/download.go:114-155 | from a peer that sends right bytes, none twice, success returns the piece |
| DownloadPiece.CompleteExactly | 2026-08-22-go-bittorrent-client/client/download.go:114-155 | right blocks, repeats allowed, assemble to the piece whatever its content if and only if they cover every position; for one content, exactly if what is left out holds zero |
| DownloadPiece.RepeatedBlock | 2026-08-22-go-bittorrent-client/client/download.go:150 | the byte count alone does not tell: one block sent twice reaches it with half of the piece missing |
| LinearSolve.Solve | 2026-10-10-python-linear-regression/linreg.py:66-82 | succeeds exactly if elimination of A completes, whatever b is; gives up only if A is singular up to 1e-12: some combination of its columns, one of them taken exactly once, is under 1e-12 in every entry; on success returns the one and only x with A x = b for the original A and b, and A is regular |
| LinearSolve.ReduceMeans | 2026-10-10-python-linear-regression/linreg.py:70-78 | a system that elimination completes becomes triangular with the same row space |
| LinearSolve.ReduceFails | 2026-10-10-python-linear-regression/linreg.py:70-78 | a system that elimination gives up on, at any column, has a vector with an entry 1 that the cleared rows take to 0 and the others to under 1e-12 |
| LinearSolve.FailsNearly | 2026-10-10-python-linear-regression/linreg.py:72-73 | elimination gives up only on a matrix that is singular up to 1e-12 |
| LinearSolve.AnyRight | 2026-10-10-python-linear-regression/linreg.py:66-78 | whether elimination completes does not depend on the right-hand side |
| LinearSolve.SmallIsRejected | 2026-10-10-python-linear-regression/linreg.py:72-73 | regular is not enough: one equation with a small coefficient has a solution and is rejected |
| LinearSolve.NearIsSolved | 2026-10-10-python-linear-regression/linreg.py:72-73 | nor is singular up to 1e-12 enough to be rejected: a system of two equations that is, and is solved |
| LinearSolve.ClearedOk | 2026-10-10-python-linear-regression/linreg.py:75-78 | clearing a column zeroes it below the pivot and keeps the row space |
| LinearSolve.ClearColumn | 2026-10-10-python-linear-regression/linreg.py:75-78 | the loops over rows and entries compute the cleared system |
| LinearSolve.RowSpaceSolutions | 2026-10-10-python-linear-regression/linreg.py:75-78 | systems with the same row space have the same solutions |
| LinearSolve.SwapOk | 2026-10-10-python-linear-regression/linreg.py:74 | swapping two rows keeps the row space |
| LinearSolve.BackSubstitute | 2026-10-10-python-linear-regression/linreg.py:79-82 | back substitution solves a triangular system |
| LinearSolve.Unique | 2026-10-10-python-linear-regression/linreg.py:79-82 | a triangular system with non-zero pivots has at most one solution |
| LinearSolve.Pivot | 2026-10-10-python-linear-regression/linreg.py:71 | the pivot is the first row with the largest entry in the column |
| LeastSquares.NormalEquation | 2026-10-10-python-linear-regression/linreg.py:85-91 | succeeds exactly if elimination of the Gram matrix completes; gives up on all collinear features, and only if that matrix is singular up to 1e-12; the weights have a squared error strictly smaller than any others |
| LeastSquares.CollinearSingular | 2026-10-10-python-linear-regression/linreg.py:73 | collinear features make the normal equations singular |
| LeastSquares.LeastError | 2026-10-10-python-linear-regression/linreg.py:85-91 | a solution of the normal equations has the least error of all vectors, and any vector with the same error solves them too |
| LeastSquares.Taylor | 2026-10-10-python-linear-regression/linreg.py:33-34 | the error around w splits into a slope and a spread that is never negative |
| LeastSquares.GradientEntry | 2026-10-10-python-linear-regression/linreg.py:89-90 | each normal equation says one entry of the gradient is zero |
| LeastSquares.SlopeIsGradient | 2026-10-10-python-linear-regression/linreg.py:89-90 | exchanging the sums: the slope is the inner product with the gradient |
| LeastSquares.ErrorIsSquared | 2026-10-10-python-linear-regression/linreg.py:28-34 | the error over rows with a bias column is the squared error of predict |
| HashTable.Table.Search | 2026-07-21-c-hash-table/src/hash_table.c:144-157 | a search that ends returns the map's answer; it runs forever exactly when no probe ever stops |
| HashTable.Table.Insert | 2026-07-21-c-hash-table/src/hash_table.c:120-142 | leaves exactly the buckets of the specified insertion, growing first when more than 70% full, and ends exactly when that does; the map is updated |
| HashTable.Table.Delete | 2026-07-21-c-hash-table/src/hash_table.c:159-179 | leaves exactly the buckets of the specified deletion, shrinking first when under 10% full, and ends exactly when that does; the key is gone |
| HashTable.Table.Resize | 2026-07-21-c-hash-table/src/hash_table.c:83-110 | rebuilds bucket by bucket into a new table, with nested growth, and ends exactly when that does |
| HashTable.Table.Find | 2026-07-21-c-hash-table/src/hash_table.c:144-157 | the probe loop stops at the key or at the first empty bucket |
| HashTable.Table.constructor | 2026-07-21-c-hash-table/src/hash_table.c:36-47 | a new table is empty, with the least prime number of buckets at or above the base size |
| HashBuckets.EndsExactly | 2026-07-21-c-hash-table/src/hash_table.c:77-81 | a probe goes on forever, for a step of the bucket count, exactly when the first bucket is passed; for any other step, exactly when the key is absent and no bucket is empty |
| HashGrowth.InsertEnds | 2026-07-21-c-hash-table/src/hash_table.c:120-142 | an insertion ends exactly when growing does and the probe of the table it then has; if no key in play has a step that is the bucket count of a table that doubling reaches: if and only if the table is grown, the key is there or a bucket is empty |
| HashGrowth.DeleteEnds | 2026-07-21-c-hash-table/src/hash_table.c:159-179 | the same for a deletion, with shrinking |
| HashGrowth.RefilledAiry | 2026-07-21-c-hash-table/src/hash_table.c:83-93 | if no key of the table has a step that is the bucket count of a table that doubling reaches, rebuilding always ends and leaves an empty bucket, whatever the gaps between primes |
| HashGrowth.LettersStride | 2026-07-21-c-hash-table/src/hash_table.c:58-81 | with the hash of the source, of the keys "a" to "z" exactly "i" and "j" have such a step in some table |
| HashGrowth.TombstonesLoop | 2026-07-21-c-hash-table/src/hash_table.c:144-157 | after inserting and deleting 53 one-character keys every bucket is a tombstone, and every search, insertion and deletion runs forever |
| HashGrowth.FullStepLoops | 2026-07-21-c-hash-table/src/hash_table.c:73-81 | in a table that holds "4" alone, everything about "i" runs forever beside 52 empty buckets: the +1 makes its step the bucket count |
| HashGrowth.Run | 2026-07-21-c-hash-table/src/hash_table.c:120-179 | after any operations that end, the table is sound and holds what a plain map would |
| HashBuckets.StopsEmpty | 2026-07-21-c-hash-table/src/hash_table.c:144-157 | stopping at an empty bucket shows the key is absent, tombstones notwithstanding |
| HashBuckets.PutNew | 2026-07-21-c-hash-table/src/hash_table.c:140-141 | filling the empty bucket keeps every key reachable and adds one to the map |
| HashBuckets.PutOver | 2026-07-21-c-hash-table/src/hash_table.c:131-135 | overwriting keeps every key reachable and the count |
| HashBuckets.Bury | 2026-07-21-c-hash-table/src/hash_table.c:169-173 | a tombstone keeps every other key reachable and removes one |
| HashTable.CountIsSize | 2026-07-21-c-hash-table/src/hash_table.c:120-179 | the count is the number of live keys |
| HashPrime.ProbeVisits | 2026-07-21-c-hash-table/src/hash_table.c:77-81 | on a prime size a probe with any other step visits every bucket within size attempts |
| HashPrime.EuclidLemma | 2026-07-21-c-hash-table/src/hash_table.c:77-81 | a prime that divides n * s with 0 < n < p divides s |
| HashPrime.IsPrime | 2026-07-21-c-hash-table/src/prime.c:5-21 | 1, 0 or -1: trial division by odd numbers up to the root decides primality |
| HashPrime.NextPrime | 2026-07-21-c-hash-table/src/prime.c:23-28 | the least prime at or above x |
| HashPrime.PrimeAbove | 2026-07-21-c-hash-table/src/prime.c:23-28 | there always is one (Euclid), so the loop ends |
| HeapAllocator.Heap.Malloc | 2026-08-02-c-memory-allocator/src/allocator.c:35-65 | takes the first free block that fits, or moves the break by header and size as a signed word; NULL exactly for size 0 or no room; the heap stays sound if and only if the request fits a signed word |
| HeapAllocator.TilesExactly | 2026-08-02-c-memory-allocator/src/allocator.c:47-61 | after a new block the list tiles the heap if and only if header and size fit a signed word |
| HeapAllocator.ClearExactly | 2026-08-02-c-memory-allocator/src/allocator.c:47-61 | and the break lies clear of every block if and only if they do, so otherwise the next block overlaps one |
| HeapAllocator.AskForLargest | 2026-08-02-c-memory-allocator/src/allocator.c:47-64 | a request of SIZE_MAX in any heap with 31 bytes to spare returns a pointer and leaves the heap broken |
| HeapAllocator.Heap.Free | 2026-08-02-c-memory-allocator/src/allocator.c:67-96 | in a sound heap one block stops being live and the break moves down exactly when it was the last; in any list, what is unlinked or marked |
| HeapAllocator.Heap.Calloc | 2026-08-02-c-memory-allocator/src/allocator.c:98-108 | malloc of the product, zeroed; NULL exactly on zero, overflow or no room; the heap stays sound if and only if the product with its header fits a signed word |
| HeapAllocator.Heap.Realloc | 2026-08-02-c-memory-allocator/src/allocator.c:110-126 | a block that is large enough is returned as it is, any other moves with its contents, every other byte kept; NULL exactly for size 0 or no room, changing nothing; sound if and only if malloc was |
| HeapAllocator.Heap.LiveApart | 2026-08-02-c-memory-allocator/src/allocator.c:12-23 | a live payload lies inside the heap, apart from every other block and header |
| HeapAllocator.Heap.GetFreeBlock | 2026-08-02-c-memory-allocator/src/allocator.c:26-33 | the lowest free block that is large enough, NULL exactly when there is none |
| HeapAllocator.Heap.Extend | 2026-08-02-c-memory-allocator/src/allocator.c:47-65 | a new tail at the old break, which moves by the wrapped amount |
| HeapAllocator.Heap.Previous | 2026-08-02-c-memory-allocator/src/allocator.c:84-85 | the walk from the head finds the block before the tail |
| HeapAllocator.Heap.DropLast | 2026-08-02-c-memory-allocator/src/allocator.c:81-88 | unlinks the last block of the list |
| HeapAllocator.Extended | 2026-08-02-c-memory-allocator/src/allocator.c:54-61 | the list still tiles the heap after a block is appended |
| HeapAllocator.Shrunk | 2026-08-02-c-memory-allocator/src/allocator.c:81-89 | and after the last one is dropped |
| HeapAllocator.StaysBroken | 2026-08-02-c-memory-allocator/src/allocator.c:120-124 | freeing the old block does not repair a heap that the request of a realloc broke |
| GitTree.FlattenTree | 2026-10-06-python-wyag/wyag.py:165-200 | flattening the tree written for a prefix gives exactly the entries below it, for all NUL-free paths and non-directory modes |
| GitTree.SameIdSameIndex | 2026-10-06-python-wyag/wyag.py:161-200 | two indexes whose objects lie in one store have equal tree ids if and only if they are equal |
| GitTree.Repo.Commit | 2026-10-06-python-wyag/wyag.py:248-255 | a commit is refused exactly when the index equals the tree of HEAD |
| GitTree.Repo.TreeFor | 2026-10-06-python-wyag/wyag.py:165-180 | writes every subtree and returns the specified id; the recursion ends |
| GitTree.Repo.WriteTree | 2026-10-06-python-wyag/wyag.py:161-163 | likewise for the whole index |
| GitTree.Repo.WriteObject | 2026-10-06-python-wyag/wyag.py:57-65 | stores an object under its id and loses none |
| GitTree.Repo.FlattenTreeAt | 2026-10-06-python-wyag/wyag.py:192-200 | the loop and recursion compute the flattened map |
| GitTree.CoveredMore | 2026-10-06-python-wyag/wyag.py:167-176 | each name of a directory stands for one file or for everything below it |
| GitTree.ModeText | 2026-10-06-python-wyag/wyag.py:175 | a mode prints as the directory mode only if it is that mode, and reads back from octal |
| GitObjects.TreeRoundTrip | 2026-10-06-python-wyag/wyag.py:179-190 | tree entries parse back, spaces in names included |
| GitObjects.RawRoundTrip | 2026-10-06-python-wyag/wyag.py:57-75 | an object's data is found behind its header, with the length right |
| GitObjects.ReadTree | 2026-10-06-python-wyag/wyag.py:182-190 | the parse loop returns the entries |
| GitObjects.SortedUnique | 2026-10-06-python-wyag/wyag.py:178 | a set of names has only one sorted order, so the tree does not depend on set iteration order |
| GitObjects.Sort | 2026-10-06-python-wyag/wyag.py:178 | sorts the names, each once, in the order of bytes that LessMeans spells out |
| GitTree.TreeOrder | 2026-10-06-python-wyag/wyag.py:177-178 | the entries of a written tree stand in the order of their names byte by byte, a directory counting as its name with a slash |
| GitTree.OneFileTree | 2026-10-06-python-wyag/wyag.py:165-180 | the object of an index with one plain file is, byte for byte, "tree 29", NUL, "100644", a space, the name, NUL, the id |
| VirtualDom.PatchExact | 2026-08-29-js-virtual-dom/src/diff.js:30-57 | patching the mount of the old tree gives the mount of the new one if and only if, for every matched pair, new children land on equal ones and no dropped property is inherited |
| VirtualDom.AddedOrder | 2026-08-29-js-virtual-dom/src/dom.js:41-44 | where each of the new children lands when they are inserted from the last to the first with a clamped index |
| VirtualDom.TwoGainsOk | 2026-08-29-js-virtual-dom/src/diff.js:51-56 | one or two new children always land in order |
| VirtualDom.ThreeGainsFail | 2026-08-29-js-virtual-dom/src/diff.js:51-56 | three different ones do not: the concrete tree |
| VirtualDom.PropsExact | 2026-08-29-js-virtual-dom/src/diff.js:18-25 | updated attributes equal the new properties if and only if no dropped one is found by `in` on every object |
| VirtualDom.DropsExactly | 2026-08-29-js-virtual-dom/src/diff.js:23 | a dropped attribute is removed exactly if it is none of the eleven names every object has |
| VirtualDom.MatchPhase | 2026-08-29-js-virtual-dom/src/diff.js:48-56 | matched children are each patched in their own place, siblings left alone |
| VirtualDom.RemovePhase | 2026-08-29-js-virtual-dom/src/diff.js:36-39 | removing from the back leaves the first children |
| VirtualDom.ChildrenShape | 2026-08-29-js-virtual-dom/src/diff.js:51-56 | all three phases together |
| VirtualDom.UpdateElement | 2026-08-29-js-virtual-dom/src/diff.js:30-57 | adds, removes, replaces or patches the child at an index, either node possibly missing, walking children from the last to the first |
| VirtualDom.RootCalls | 2026-08-29-js-virtual-dom/src/diff.js:30-44 | among siblings, which stay: mounting with no old tree, removing with no new one, and patching to the new tree exactly when the condition holds |
| VirtualDom.UpdateProps | 2026-08-29-js-virtual-dom/src/diff.js:18-25 | sets changed properties and removes dropped ones |
| VirtualDom.CreateElementFromVNode | 2026-08-29-js-virtual-dom/src/render.js:6-19 | builds the mount of a virtual node |
| VirtualDom.MountMeans | 2026-08-29-js-virtual-dom/src/render.js:6-19 | written out, the mounted tree is the virtual one: tags, attributes, and strings and numbers as their text, in order |
| MqttTopic.TopicMatch | 2026-10-21-c-mqtt-broker/mqtt.c:154-174 | for every valid filter and every topic the character walk answers as the level-by-level rules, `$` topics, empty levels and "a/#" against "a" included |
| MqttTopic.IsValidFilter | 2026-10-21-c-mqtt-broker/mqtt.c:137-147 | accepts exactly the filters whose wildcards fill their level and whose # is last |
| MqttTopic.CharsLevels | 2026-10-21-c-mqtt-broker/mqtt.c:137-147 | checking characters is checking levels |
| MqttTopic.OneLevel | 2026-10-21-c-mqtt-broker/mqtt.c:158-172 | one turn of the matcher's loop is one level of the rules |
| MqttTopic.TopicEnds | 2026-10-21-c-mqtt-broker/mqtt.c:170 | when the topic is used up only nothing or "/#" may be left |
| MqttTopic.SameLevel | 2026-10-21-c-mqtt-broker/mqtt.c:164-168 | compares one literal level |
| MqttFrame.VarintRoundTrip | 2026-10-21-c-mqtt-broker/mqtt.c:5-27 | an encoded size reads back, whatever follows, if and only if it fits in the bytes looked at; otherwise it is refused |
| MqttFrame.VarintPrefix | 2026-10-21-c-mqtt-broker/mqtt.c:17-27 | a part of an encoded size asks for more |
| MqttFrame.FrameRoundTrip | 2026-10-21-c-mqtt-broker/mqtt.c:29-42 | a built packet is framed back, whatever follows it, if and only if its parts fit; any part of it asks for more |
| MqttFrame.MisfitsFail | 2026-10-21-c-mqtt-broker/mqtt.c:5-42 | a packet of kind 16 comes back as kind 0, and one with a body of 2^28 bytes is refused |
| MqttFrame.StreamSplits | 2026-10-21-c-mqtt-broker/mqtt.c:29-42 | a stream with a partly received last packet splits into exactly its packets and that part |
| MqttFrame.VarintEncode | 2026-10-21-c-mqtt-broker/mqtt.c:5-15 | the loop writes the encoding |
| MqttFrame.VarintDecode | 2026-10-21-c-mqtt-broker/mqtt.c:17-27 | the loop reads it, at most four bytes |
| MqttFrame.BuildPacket | 2026-10-21-c-mqtt-broker/mqtt.c:114-121 | writes the packet that framing reads: kind and flags cut to four bits, the encoded length, the body |
| MqttFrame.BuildBytes | 2026-10-21-c-mqtt-broker/mqtt.c:5-121 | the first byte is 16 times the kind plus the flags; a length below 128 is one byte, below 16384 two, low seven bits first |
| MqttFrame.FirstFrame | 2026-10-21-c-mqtt-broker/mqtt.c:29-42 | the first packet of a buffer, or more needed, or malformed |
| LispText.ReadPrint | 2026-08-23-c-lisp/src/parser.c:55-170 | reading the printed form of any readable value gives that value and consumes all input |
| LispSource.ProgramMeans | 2026-08-23-c-lisp/src/parser.c:16-170 | any program text - words, numerals, strings with escapes and lists, with any white space and comments between, before and after, also inside brackets - is read as exactly what its forms mean; the grammar is spelled out in character codes |
| LispSource.FormParses | 2026-08-23-c-lisp/src/parser.c:130-146 | a form of that grammar is read as what it means wherever it stands |
| LispSource.TextFails | 2026-08-23-c-lisp/src/parser.c:16-170 | a text that is fine up to a stray bracket or character, an open string or an open list is refused with the error for that |
| LispSource.PrintMeans | 2026-08-23-c-lisp/src/lval.c:198-262 | what is printed is a text of that grammar that means the value: single spaces, and a backslash before quotes, backslashes, line feeds, tabs and returns |
| LispText.ProgramParses | 2026-08-23-c-lisp/src/parser.c:148-170 | likewise for any list of values printed with spaces between |
| LispText.ValueParses | 2026-08-23-c-lisp/src/parser.c:131-146 | a printed value is read back wherever it stands, if what follows ends a token |
| LispText.CellsParse | 2026-08-23-c-lisp/src/parser.c:107-129 | printed cells are read back up to their closing bracket |
| LispText.StringParses | 2026-08-23-c-lisp/src/parser.c:55-87 | an escaped string reads back |
| LispText.NumRoundTrip | 2026-08-23-c-lisp/src/lval.c:198-204 | an integer below 10^15 in magnitude prints as a token that reads as that number |
| LispReader.ParserRead | 2026-08-23-c-lisp/src/parser.c:148-170 | the reader returns all forms, or the first error |
| LispReader.Parser.ParseExpr | 2026-08-23-c-lisp/src/parser.c:131-146 | one expression: value and position, or error, as specified |
| LispReader.Parser.ParseList | 2026-08-23-c-lisp/src/parser.c:107-129 | cells up to the bracket |
| LispReader.Parser.ParseString | 2026-08-23-c-lisp/src/parser.c:55-87 | a string literal, its escapes and the size of its buffer |
| LispReader.Parser.ParseAtom | 2026-08-23-c-lisp/src/parser.c:89-105 | a symbol or number token, cut at 255 characters |
| LispReader.Parser.SkipWs | 2026-08-23-c-lisp/src/parser.c:16-25 | past white space and comments |
| LispReader.Printer.Print | 2026-08-23-c-lisp/src/lval.c:230-262 | writes the printed form |
| LispReader.LvalEq | 2026-08-23-c-lisp/src/lval.c:269-289 | structural comparison is equality |
| TetrisGame.Game.Lock | 2026-10-09-cpp-tetris/tetris.hpp:166-188 | locking places the piece, clears at most four full rows, scores them, and keeps the invariant: no full row, occupied cells equal 4 x locks - 10 x lines, a live piece fits |
| TetrisGame.Game.ClearLines | 2026-10-09-cpp-tetris/tetris.hpp:175-188 | the loop that re-checks a row ends, and leaves the surviving rows in order under blank ones |
| TetrisGame.Game.HardDrop | 2026-10-09-cpp-tetris/tetris.hpp:108-120 | locks the piece where it lands and scores two points a row |
| TetrisBoard.LandingMeans | 2026-10-09-cpp-tetris/tetris.hpp:108-131 | the landing place is straight below, every place on the way fits, and the next does not |
| TetrisGame.KickOrder | 2026-10-09-cpp-tetris/tetris.hpp:85-96 | a turn tries no shift, one left, one right, two left, two right |
| TetrisGame.Game.Step | 2026-10-09-cpp-tetris/tetris.hpp:97-104 | moves down exactly when that fits, otherwise locks |
| TetrisGame.Game.SoftDrop | 2026-10-09-cpp-tetris/tetris.hpp:106 | scores one point for a step that moved |
| TetrisGame.Game.Move | 2026-10-09-cpp-tetris/tetris.hpp:74-81 | moves sideways exactly when that fits |
| TetrisGame.Game.Rotate | 2026-10-09-cpp-tetris/tetris.hpp:84-94 | turns with the first of five kicks that fits, or changes nothing |
| TetrisGame.Game.Ghost | 2026-10-09-cpp-tetris/tetris.hpp:123-131 | the landing place |
| TetrisGame.Game.Spawn | 2026-10-09-cpp-tetris/tetris.hpp:160-164 | the next piece enters at the top; the game is over exactly when it does not fit |
| TetrisGame.Game.constructor | 2026-10-09-cpp-tetris/tetris.hpp:50-54 | a new game is not over |
| TetrisBag.Bag.Draw | 2026-10-09-cpp-tetris/tetris.hpp:150-158 | deals the next piece of the current shuffle, reshuffling an empty bag |
| TetrisBag.SevenBag | 2026-10-09-cpp-tetris/tetris.hpp:149-158 | every seven draws from the start of a round deal each kind exactly once |
| TetrisBoard.ClearedCounts | 2026-10-09-cpp-tetris/tetris.hpp:175-187 | clearing leaves no full row and takes ten cells per line |
| TetrisBoard.PlaceCounts | 2026-10-09-cpp-tetris/tetris.hpp:166-170 | locking a piece that fits fills exactly four empty cells |
| TetrisBoard.AtMostFour | 2026-10-09-cpp-tetris/tetris.hpp:185-186 | at most four rows can become full, so the points table is never overrun |
| TetrisBoard.DropRowClears | 2026-10-09-cpp-tetris/tetris.hpp:181-183 | one removed row and one blank row at the top leave the survivors' order |
| TetrisBoard.CellsBoxed | 2026-10-09-cpp-tetris/tetris.hpp:33-40 | four different cells inside the box after any number of turns |
| TetrisBoard.FourTurns | 2026-10-09-cpp-tetris/tetris.hpp:33-40 | four turns are none |
| TetrisShapes.Clockwise | 2026-10-09-cpp-tetris/tetris.hpp:33-40 | a turn is clockwise: the left column, read upwards, becomes the top row |
| TetrisShapes.Drawn | 2026-10-09-cpp-tetris/tetris.hpp:19-29 | the seven pieces as they enter, drawn |
| TetrisShapes.FitsMeans | 2026-10-09-cpp-tetris/tetris.hpp:61-68 | a piece fits exactly if every place its shape covers is within ten columns and above the floor of twenty rows, and empty unless it is above the board |
| TetrisShapes.PlaceShows | 2026-10-09-cpp-tetris/tetris.hpp:166-170 | a locked piece shows as the number of its kind in its own cells and changes no other cell |
| Matmul.Tiled | 2026-09-14-cpp-matmul/src/matmul_tiled.cpp:21-56 | the cache-blocked product is the product, for all sizes, ragged panels included |
| Matmul.Kernel | 2026-09-14-cpp-matmul/src/matmul_kernel.cpp:12-37 | so is the register-blocked one |
| Matmul.Naive | 2026-09-14-cpp-matmul/src/matmul_naive.cpp:5-16 | and the triple loop |
| Matmul.AccumulateTile | 2026-09-14-cpp-matmul/src/micro_kernel.hpp:22-37 | adds one range of terms to one tile and touches nothing else |
| Matmul.TileSums | 2026-09-14-cpp-matmul/src/micro_kernel.hpp:24-33 | the register accumulators hold the tile plus the terms |
| Matmul.Block | 2026-09-14-cpp-matmul/src/matmul_tiled.cpp:32-53 | tiles and the left-over columns together cover the block once |
| Matmul.SumSplit | 2026-09-14-cpp-matmul/src/matmul_tiled.cpp:26-27 | terms in consecutive panels add up to the whole sum |
| Matmul.AllThree | 2026-09-14-cpp-matmul/src/matmul_naive.cpp:5-16 | the naive, the blocked and the register-blocked form leave the same matrix |
| TicTacToe.Minimax | 2026-10-07-python-tictactoe-ai/tictactoe.py:23-45 | alpha-beta agrees with plain minimax in every window: exact inside, on the right side outside; the board is left as it was |
| TicTacToe.BestMove | 2026-10-07-python-tictactoe-ai/tictactoe.py:48-56 | picks the first of the moves whose plain value is best, on any board with a free cell |
| TicTacToe.NeverBeaten | 2026-10-07-python-tictactoe-ai/tictactoe.py:1 | from a position worth at least a draw, a player who takes those moves is never beaten, whatever the other one plays |
| TicTacToeDraw.Unbeatable | 2026-10-07-python-tictactoe-ai/tictactoe.py:65-88 | in the play loop, whoever takes those moves is never beaten: as X from the empty board, as O after any of the nine openings, whatever the other one plays |
| TicTacToeDraw.GameIsDraw | 2026-10-07-python-tictactoe-ai/tictactoe.py:1 | the empty board is worth exactly a draw |
| TicTacToeDraw.SecondHolds | 2026-10-07-python-tictactoe-ai/tictactoe.py:1 | the second player has at least a draw after every opening |
| TicTacToeDraw.FirstHolds | 2026-10-07-python-tictactoe-ai/tictactoe.py:1 | the first player has at least a draw |
| TicTacToeDraw.LightHolds | 2026-10-07-python-tictactoe-ai/tictactoe.py:23-45 | on any board, lines the other player can still complete that weigh under 8 in all leave the player to move at least a draw |
| TicTacToeDraw.ZeroSum | 2026-10-07-python-tictactoe-ai/tictactoe.py:23-45 | the value for one player is the negated value for the other |
| TicTacToe.BestIsValue | 2026-10-07-python-tictactoe-ai/tictactoe.py:48-56 | a best move is worth what the position is worth |
| TicTacToe.PlainIsBest | 2026-10-07-python-tictactoe-ai/tictactoe.py:31-45 | no move is better than the plain value |
| TicTacToe.PlainRange | 2026-10-07-python-tictactoe-ai/tictactoe.py:24 | values stay within ten, minus the depth |
| TicTacToe.CutOff | 2026-10-07-python-tictactoe-ai/tictactoe.py:43-44 | moves after a cut-off only improve the cut value |

## Left out

Mini-C compiler:

- The lexer and parser: a program is any tree of the shapes the parser builds (`MiniCAst`), with literals up to 0xFFFFFFFF as the lexer checks them; error messages carry no line numbers.
- Assembly text: instructions are a datatype, labels a prefix and a number; the assembler, the linker's handling of names and the upper halves of registers are not modelled, and the stack never runs out.
- MiniCResolver.Resolver.ResolveStmt: returns a new tree instead of writing slots into the old one.

LSM store:

- Failures of file operations, and a crash in the middle of writing one run: a half-written run makes the store refuse to open, so writing a run is one step; an append to the log may stop after any byte.
- LsmCrash.CrashSafe: assumes the log ended between two records when the operation began; behind a torn tail it is false, as `WritesSurviveExactly` says.
- LsmStore.Store.KvPut: requires a key and value whose lengths fit in 32 bits, which `LsmRecord.RoundTrip` shows to be exactly what survives; likewise `KvDel`.
- LsmStore.KvOpen: when some id has more than six digits the scan takes runs for others, and what the store then answers is not stated beyond its index. White space or a sign in front of a file name, which the scan would skip, and other files than runs and the log are not modelled.

B-tree database:

- The byte layout inside a page, the pager's reads and writes of the file, and the parsing of commands; a page's header fields and slots are a value in the pager's array, and the unused root flag is dropped.

JIT:

- The lexer, the parser and the executable mapping, and names that are no small letter, which a call refuses; memory is read and written in aligned eight-byte cells. Nothing is claimed about RBX, which the code overwrites.
- JitCorrectness.JitExact: one direction only with division, since values that overflow on the way may still agree by accident.

Download:

- Liveness: every worker may exit. Which pieces a peer has is not modelled, so a worker may put any piece back; dialling and the handshake may succeed or fail.
- DownloadPool.RunInv: assumes as many hashes as pieces of the given length cover the file, which the torrent reader does not check.
- The tracker, the torrent file and bencoding.

Linear regression:

- Floating point: arithmetic is over exact reals. Gradient descent, the two-point fit and the random data.

Hash table:

- The polynomial hash itself (floating-point powers) and C integer overflow in the probe; the two hashes are any functions into the table.
- HashTable.Table.Insert: returns false where the code runs forever; what is then in the array is not promised.
- HashGrowth.RefilledAiry: assumes that no key in the table has a step that is the bucket count, in tables of the base size or of its doublings; without that rebuilding can run forever too, but that it then does is stated only by its own result.
- HashGrowth.InsertEnds: likewise for an insertion that grows the table, and `DeleteEnds` for a deletion that shrinks it.

Allocator:

- The mutex, and bytes that hold headers: headers and payload bytes are kept apart by address, which `LiveApart` justifies.
- HeapAllocator.Heap.Malloc: requires a sound heap, so nothing is promised about requests to a heap that a wrapped one broke. Writing past the break is not a fault here. sbrk is any that refuses to leave a fixed range.

Git:

- Compression, file names of objects, the index file format, commits' text and checkout; names are byte strings. The hash is any function without a collision among the objects in play.

Virtual DOM:

- VirtualDom.UpdateElement: works on values, so parent pointers and node identity are not modelled, and a missing real child is left alone where the source throws; properties are strings, and the name `__proto__` is not one.

MQTT:

- The other packet parsers, sessions and sockets.

Lisp:

- Non-integer numbers, whose point is no symbol character, errors, functions and reference counting; numbers are exact integers.

Tetris:

- The hooks that set a cell or a piece from outside, and the shuffle's randomness: any permutations will do. The grid is a sequence of rows the methods reassign row by row.

Matrix product:

- Rounding, and flat indexing: the output is a two-dimensional array, the inputs sequences of rows. The intermediate loop orders and the plain vector form.

Whole programs that are interfaces, servers, rendering or floating point throughout.
