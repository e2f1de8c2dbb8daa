# EigenScript runtime: verification model

EigenScript is a bytecode virtual machine written in C. This project models the parts of its runtime and tools that
carry a hard invariant of their own, and proves those invariants with Dafny. One module stands for one component.

| component | modules |
|---|---|
| Bytecode verifier, and errors caught in verified code | `Opcodes`, `Bytecode`, `Verifier`, `Raises`, `DrainingUnit` |
| The interpreter's instruction handlers, and what the verifier's acceptance means for them | `Handlers`, `Frames`, `FrameRuns`, `ShallowAppend` |
| Constant pool and its open-addressing index | `Constants`, `ConstPool` |
| Static-load scan of compiled code | `StaticLoads`, `LiteralLoads` |
| Sandbox descriptors: isolation of constants, nested build, scan of the result | `Isolation`, `Descriptor`, `CallableScan` |
| Channels between threads | `Channel` |
| JSON | `Bytes`, `Utf8`, `JsonString`, `Json`, `JsonGrammar`, `JsonMembers`, `JsonRoundTrip` |
| Scope-aware rename of the language server | `Scopes`, `Declarations`, `Rename`, `RenameHandler` |
| Slot table of the corpus builder | `LruSlots` |
| Tiled matrix kernels; scatter and gather | `Matmul`, `Scatter` |
| Single-file bundles | `BundleFormat`, `BundleScan`, `Bundle`, `Confinement` |
| Arena allocator | `Arena` |
| Buffer windows, channels and resampling | `Buffers`, `Resample` |
| What several of these use | `Basics` |

Code that works in place is modelled in place: classes and arrays with loops, each method proved against a function
of its inputs, and the theorems are then about that function. `dafny verify dfyconfig.toml` checks the whole project.

## What is proved

- **Verifier.** The four passes accept a unit exactly when it decodes, its jumps land on instruction boundaries, it
  ends closed, and *every* run of the operand-height machine is safe and reaches each offset at one height; that is
  the same as the existence of a consistent height assignment. Each offset enters the worklist once. With errors that
  unwind to catch handlers, whatever heights the interpreter's instructions leave when they raise, runs of an accepted
  unit stay safe and at the heights the verifier recorded exactly when no raise in a try region drains the stack below
  the region's base, and exactly when a finite set of frames certifies that.
- **Frames.** The handlers of all 94 opcodes are modelled on stacks of values, without reference to the verifier's tables,
  with everything they touch. Every opcode but one does to the stack what its row says and looks at nothing below the
  operands the row requires. A frame of an accepted unit is always where the verifier's machine is, and touches nothing
  but its own code, tables and stack window exactly when no OP_LISTCOMP_APPEND is reached at height 2.
- **Constant pool.** The hash index refines a linear scan over any mix of deduplicating and positional adds, any hash
  functions, NaN and both zeros. A lookup returns the *first* equal entry even after positional adds have put duplicates
  into the index; the comment at `src/chunk.c:306-309` allows for either copy.
- **Static loads.** The scan answers "known" exactly when every use of `load_file` in the whole tree of units heads the
  literal shape, and then reports exactly what the instructions load, in walk order; executed, the literal shape calls
  what is found under the name `load_file` on that very literal.
- **Descriptors.** On an arbitrary heap graph the isolating walk terminates, succeeds exactly when the graph unfolds to
  finite data within the allowance, and returns a copy, node by node, that shares nothing mutable and takes no more memory
  than was paid for. A nested build spends exactly the cost of its plan, from one allowance, and returns the unit that the
  descriptor describes, in which the verifier accepts every unit. A sandbox result crosses the boundary exactly when no
  walk reaches a callable and the walk stays within both bounds.
- **Channels.** Over every interleaving, with spurious wakeups, timeouts and barging: first in first out, nothing
  enqueued after close, and no lost wakeup.
- **JSON.** The recursive-descent decoder accepts exactly the texts that have a parse tree, of at most 200 containers in
  one another, and gives the value the tree stands for, in which a repeated key keeps its first place and takes its last
  value; decoding an encoding gives the value back exactly when it nests no deeper than that; whatever decodes encodes
  again, to a text of the same value if its numbers survive.
- **Rename.** Renaming to any name, used or not, keeps every binding and every distinction between variables exactly when
  the binding is not the implicit parameter `n` and the new name is not captured, a condition on the text before the
  rename.
- **Slots.** In a run of occurrences, equal slots mean equal names exactly when the run has no more distinct names than
  there are slots, whatever came before.
- **Kernels.** With addition and multiplication about which nothing is assumed, tiling computes the naive left fold of
  every cell; scatter-add into zeros is the adjoint of gather.
- **Bundles.** Whoever wrote a bundle, nothing of it is unpacked outside the extraction directory. What is written reads
  back; a chunked head scan answers as a scan of the whole file does; exactly when re-bundling is idempotent and when a
  truncated bundle is recognized.
- **Arena.** Over every run, allocations are in bounds exactly when each is of an allowed kind; live memory is aligned and
  disjoint; a reset undoes exactly what followed the mark; everything tracked is freed once.

## Where the code falls short of what it says

Each of these is proved: a lemma at an input for which the promise fails, and the exact condition under which it holds.

- The verifier's comment (`src/chunk.c:699-707`) has a catch handler entered exactly one operand above the height recorded
  at OP_TRY_BEGIN. A unit that pops below that height inside the region, and then raises, is accepted and enters its
  handler lower, where a POP finds nothing (`DrainingUnit.AcceptedButUnsafe`, `Raises.RaisesAreSafeIffUndrained`).
- The verifier's row for OP_LISTCOMP_APPEND (`src/chunk.c:682-686`) requires two operands. The handler takes one and looks
  two below what is left (`src/vm.c:6163-6173`), at a third: at height 2 it appends to an operand of the caller
  (`ShallowAppend.AcceptedButLooksBelow`, `FrameRuns.AcceptedFramesStayInsideIff`). Compiled code reaches it at 3 or more.
- `scatter_add` documents that a raise leaves the destination untouched (`src/builtins_tensor.c:904-905`). That fails when
  the destination is a vector and its own `indices` (`Scatter.OwnIndicesHalfUpdate`) and holds otherwise, for a matrix
  that is its own indices too (`Scatter.AllOrNothingIffIndicesAreApart`). A vector that is its own values has them re-read
  as they change, and a matrix has not (`Scatter.OwnValuesAreReread`, `Scatter.AccumulatesIffValuesAreApart`).
- A bundle entry whose path is longer than 2000 bytes is unpacked under a shortened name, although the reader takes paths
  of up to 2047 bytes (`Bundle.LongNameIsCut`, `Bundle.NamesSurviveIffShort`).
- A bundle is meant to be refused for `..` segments (`src/bundle.c:493-494`). It is refused for two dots anywhere in a path,
  as in "a..b", which leads nowhere else (`Confinement.DotsInNamesAreRefused`, `Confinement.TakenIff`).
- A truncated bundle is meant to be refused (`src/bundle.c:55-65`). It is refused exactly when the first entry's header
  survives, its path is printable ASCII and the rest of the file is no smaller than that entry, or when something else in
  the file looks like a head (`Bundle.AccentedTruncationIsNotRefused`, `Bundle.TruncationIsRefusedIff`).
- After the arena's last block, allocations of mixed sizes can take an address in a block that does not exist
  (`Arena.MixedSizesLeaveTheArena`); allocations of one size cannot (`Arena.AllLandInBoundsIffAllAllowed`).
- Renaming the implicit parameter `n` of a parameterless `define` changes bindings (`Rename.ImplicitBrokenIsInhabited`),
  and nothing keeps a new name from being captured, or from capturing (`Rename.CaptureIsInhabited`). Every other rename
  is an alpha-renaming (`Rename.RenameIsAlphaRenaming`), among them all to a name that no token has and that is not `n`
  (`Rename.FreshNamesAreNotCaptured`).
- `buf_deinterleave` counts the samples of a channel in 64 bits (`src/builtins_buf.c:847`). With a channel count near 2^63
  the sum wraps, and the answer is a buffer of count -1 or 0 where one sample is available (`Buffers.HugeChannelCount`,
  `Buffers.DeinterleavesIffNoWrap`).

One comment is out of date: the archive format is described as `fmt=1` (`src/bundle.c:22-25`) where the code writes and
demands 2 and has a 24-byte head. The model follows the code.

## Model

| member | source | states |
|---|---|---|
| Bytecode.StartsAreDecoded | src/chunk.c:749-782 | every boundary met while decoding a unit that decodes is a valid instruction inside the code, from which the rest decodes as well |
| Verifier.CheckOperands | src/chunk.c:764-781 | the operand loop accepts exactly valid operands and appends exactly the jump target of the instruction, if it has one |
| Verifier.DecodePass | src/chunk.c:747-782 | pass 1 succeeds iff the code decodes into valid instructions; it then marks exactly the boundaries, lists the jump targets in order and knows the last opcode |
| Verifier.DecodedOneMore | src/chunk.c:749-782 | one decoded instruction extends the marks, targets and last opcode found so far, and a bad one means the unit does not decode |
| Verifier.TargetPass | src/chunk.c:784-788 | pass 2 succeeds iff every collected target is an instruction boundary |
| Verifier.TargetsLand | src/chunk.c:784-788 | the collected targets land iff the jump of every instruction of the unit lands |
| Verifier.LastStartIsLast | src/chunk.c:790-803 | the last decoded instruction is the only one that ends where the code ends, which is why one terminator check covers pass 3 |
| Verifier.FollowNewEdge | src/chunk.c:840-851 | an edge to an offset without a height records a height some run reaches and lists an offset not listed yet, so the worklist never exceeds the code's length |
| Verifier.DistinctFit | src/chunk.c:836-839 | distinct offsets below n number at most n: the bound of the worklist |
| Verifier.Visit | src/chunk.c:840-851 | following one edge records the target's height, or rejects with a run that is unsafe or a pair of runs that disagree about a height |
| Verifier.Process | src/chunk.c:852-886 | following all edges of one offset keeps the propagation's invariant and makes progress, or rejects a unit some run of which is unsafe |
| Verifier.StillPropagating | src/chunk.c:852-886 | an offset once settled stays settled while other offsets get heights |
| Verifier.HeightPass | src/chunk.c:806-888 | pass 4 terminates and accepts a well-formed unit iff every run is safe and all runs agree about the height at each offset |
| Verifier.TypingMakesRunsSafe | src/chunk.c:806-822 | a height assignment consistent on every edge makes every run safe |
| Verifier.RunsAreSafeIffTyped | src/chunk.c:806-822 | all runs are safe and agree iff a consistent height assignment with 0 at the entry exists |
| Verifier.ChunkVerify | src/chunk.c:736-896 | the verifier accepts a unit iff it decodes, its jumps land, it ends closed and every run of the height machine is safe with one height per offset; `Frames` and `FrameRuns` say what that means for the interpreter |
| Verifier.AcceptedRunsStayInside | src/chunk.c:738-896 | at every step of every run of an accepted unit: on a boundary inside the code, operands enough, height at most 65536, one height per offset, and no successor only at a return |
| Frames.StepAsTabled | src/vm.c:3106-6395 | every handler but OP_LISTCOMP_APPEND and the returns, on any stack with the operands its row requires: it goes to the end of the instruction or to its jump target as the row's flow allows, leaves the pops and pushes of that edge and everything below the pops as it was, touches no slot below the operands required, but the lowest of them, and only existing code, constants, strings for names, and nested units |
| Frames.AppendLooksDeeper | src/vm.c:6163-6173 | OP_LISTCOMP_APPEND leaves what its row says, but looks at a third operand whenever the stack has one |
| Frames.ReturnDrains | src/vm.c:4269-4331 | a return looks at nothing below its frame's window and leaves the window empty |
| Frames.BranchTakes | src/vm.c:3890-3918 | of a branching instruction each edge is taken in some world |
| FrameRuns.MoveTracked | src/vm.c:3088-3092 | a step of the interpreter is a step of the verifier's machine at the height of the frame's window, and leaves the windows below as they were |
| FrameRuns.FramesKeepTheirHeights | src/chunk.c:806-822 | wherever a frame of an accepted unit gets, over whatever lies below it, the verifier's machine gets too, the instruction there is valid and has its operands in the frame's own window |
| FrameRuns.RunRealized | src/chunk.c:806-822 | every run of the verifier's machine on an accepted unit is one of some frame |
| FrameRuns.AcceptedFramesStayInsideIff | src/chunk.c:682-686 | frames of an accepted unit touch nothing but the unit's code and tables and their own window, whatever lies below, iff no OP_LISTCOMP_APPEND is reachable at a height below 3 |
| ShallowAppend.AcceptedButLooksBelow | src/chunk.c:682-686 | NULL, NULL, LISTCOMP_APPEND, RETURN is accepted and looks at the operand below its frame |
| Raises.TryBranches | src/chunk.c:699-707 | the branch edge of OP_TRY_BEGIN is its handler, one operand deeper than the height at which it registers |
| FrameRuns.CaughtIsDrained | src/vm.c:3050-3064 | draining the stack to the height recorded and pushing the error enters the handler at the height raising runs have it at |
| Raises.MoveStaysCovered | src/vm.c:5000-5027 | registering, dropping and entering handlers as verified leads only to states and handlers that runs without raises reach |
| Raises.UndrainedMakesRaisesSafe | src/vm.c:3051-3063 | if no raise in a try region drains the stack below the region's base, every run with errors caught is safe, has at most 8 handlers, and has the heights of the runs without raises |
| Raises.VerifiedRunIsRaising | src/vm.c:3051-3063 | if all runs with errors caught are safe, handlers entered as verified cover all that such runs do, and no raise in them drains the stack |
| Raises.RaisesAreSafeIffUndrained | src/chunk.c:699-707 | whatever heights raises leave: errors are caught safely in an accepted unit, at the verified heights, iff no raise in its try regions drains the stack below their bases |
| Raises.RaisesAreSafeIffCertified | src/chunk.c:699-707 | that is so iff a finite set of frames, closed under execution and catching, keeps its bases |
| DrainingUnit.DrainingIsAccepted | src/chunk.c:736-896 | the unit that pops below its try region's base is accepted by all four passes |
| DrainingUnit.AcceptedButUnsafe | src/vm.c:3580-3584 | an undefined name raised in that unit enters the handler one operand short, and the run reaches a POP at height 0 |
| ConstPool.EqualHashesEqual | src/chunk.c:192-217 | equal constants hash equally, whatever the mixing, because the zeros are folded first |
| Constants.EqualIffSameNumber | src/chunk.c:215-236 | two doubles are equal iff neither is a NaN and sign, exponent and fraction stand for the same number, the two zeros being one |
| ConstPool.AddedEntry | src/chunk.c:238-314 | an add keeps the pool as a prefix, returns an entry equal to the value unless it equals nothing, and returns the position appended when it does not deduplicate or the value equals nothing, as NaN does |
| ConstPool.NotAllFilled | src/chunk.c:245-247 | with fewer hashable entries than slots every probe meets an empty slot |
| ConstPool.IndexedInsert | src/chunk.c:219-224 | inserting into the first empty slot of a probe path keeps the index complete |
| ConstPool.FirstProbedIsFirst | src/chunk.c:250-256 | probing stops at the first equal entry of the pool in pool order, or at a gap exactly when no entry is equal |
| ConstPool.Pool.Insert | src/chunk.c:219-224 | the probe loop terminates and indexes the new entry |
| ConstPool.Pool.Grow | src/chunk.c:226-236 | the rebuilt index describes the same pool in a table of 64 or twice the slots |
| ConstPool.Pool.Find | src/chunk.c:248-257 | the lookup equals the linear scan, or finds nothing when not deduplicating |
| ConstPool.Pool.Add | src/chunk.c:238-314 | pool and returned index equal those of the linear-scan specification, and the table stays at most half full |
| ConstPool.BuiltHasNoDuplicates | src/chunk.c:298-300 | a pool built by deduplicating adds has no two equal entries |
| StaticLoads.PoolIndexOf | src/chunk.c:1369-1375 | the first entry that spells the name, or none |
| StaticLoads.StepOverLines | src/chunk.c:1350-1367 | the first offset at or after the given one that holds no OP_LINE, stepping as the verifier does |
| StaticLoads.CarriesName | src/chunk.c:1426-1434 | comparing operand indices with one pool index decides whether some name operand spells `load_file`, because the pool has no duplicates |
| StaticLoads.ScanInstruction | src/chunk.c:1409-1453 | an instruction is refused iff it names `load_file` without heading the literal shape; otherwise exactly its loads are visited |
| StaticLoads.ScanStaticLoads | src/chunk.c:1377-1460 | 0 iff every unit of the tree is compiler output using `load_file` only in literal loads, and then the visits are the tree's loads in walk order |
| StaticLoads.WalkCoversStarts | src/chunk.c:1408-1454 | the linear walk meets exactly the instruction boundaries: what it finds is what the instructions do |
| StaticLoads.TransparentMeansEveryUse | src/chunk.c:1377-1460 | a 0 answer is a statement about every instruction of every unit, however deeply nested |
| StaticLoads.TreeLoadsAreWhatInstructionsPerform | src/chunk.c:1415-1449 | a path or module is visited iff some instruction of some unit of the tree loads it |
| LiteralLoads.LiteralLoadCalls | src/chunk.c:1409-1449 | executed from where a literal load is headed: what is found under the name `load_file` is pushed, then, with nothing but OP_LINE between, the literal path, and a call takes these two and nothing else |
| LiteralLoads.ImportsLoadTheirName | src/chunk.c:1415-1424 | the module an import is said to load is the name its handler looks up |
| Isolation.DescVerify.Spend | src/builtins.c:3131-3136 | spending within the allowance subtracts; spending beyond it fails and leaves nothing |
| Isolation.DescVerify.Enter | src/builtins.c:3140-3147 | a node enters the path iff it is not on it and the path has fewer than 64 nodes |
| Isolation.DescVerify.Leave | src/builtins.c:3149-3151 | leaving drops exactly the last node of the path |
| Isolation.DescVerify.IsolateConst | src/builtins.c:3173-3227 | success, cost and freshness exactly as the walk has them; what is returned is a copy all the way down: the same scalars, buffers of the same rows, columns and elements, lists and dictionaries of copies in order under the same keys; and the heap grows by no more than was spent |
| Isolation.DescVerify.IsolateContainer | src/builtins.c:3196-3219 | the same for a list or dictionary, which is entered, copied and left |
| Isolation.DescVerify.CopyChildren | src/builtins.c:3201-3207 | the loop over the items copies all of them in order, or fails exactly when some item does not unfold or the allowance runs out |
| Isolation.DescVerify.IsolateAll | src/builtins.c:3283-3294 | a constant pool is isolated entry by entry against one allowance, each entry a copy of its own all the way down, within the memory paid for |
| Isolation.UnfoldGrown | src/builtins.c:3173-3227 | copies made on the way do not change what the source stands for |
| Isolation.HoldsCopy | src/builtins.c:3173-3227 | what holds the data that a value unfolds to is a copy of it, down to any depth |
| Isolation.UnfoldsIffEveryChainAdmissible | src/builtins.c:3140-3227 | a value unfolds iff every walk over the values it holds ends at data, never at a callable, a text builder or a NULL, and passes no container twice nor more than 64 of them |
| Isolation.UnfoldedIsAcyclicData | src/builtins.c:3106-3116 | below a value that was isolated no container is its own ancestor and nothing is a function, builtin or text builder |
| Descriptor.BuildUnit | src/builtins.c:3348-3354 | one unit of the descriptor graph: entered, built, left, with the path restored; built iff it has a plan within the allowance |
| Descriptor.BuildBody | src/builtins.c:3254-3342 | code, constants, nested units and local names of a unit are exactly as planned and the plan's cost is what was spent; refused iff there is no plan or it costs too much |
| Descriptor.BuildAll | src/builtins.c:3306-3311 | the nested units are built in order against the one allowance |
| Descriptor.PlanGrown | src/builtins.c:3254-3342 | isolating constants on the way changes no plan still to be built |
| Descriptor.PlannedUnitsAccepted | src/builtins.c:3338-3341 | every unit of a plan, at any depth, is accepted by the verifier |
| Descriptor.SeenAsPlanned | src/builtins.c:3276-3294 | the unit built is, to the verifier, the unit planned: isolation changes no constant's type or text and no position |
| Descriptor.PlanMirrored | src/builtins.c:3254-3342 | a unit that realizes the plan of a descriptor mirrors the descriptor: code byte by byte, constants copied, nested units in turn, parameter count and names |
| Descriptor.SeenAsItIs | src/chunk.c:747-782 | what the verifier is shown of a unit is its code, and its strings and numbers as the heap has them |
| Descriptor.BuildSandboxed | src/builtins.c:3359-3365 | from one allowance of 150000: a build succeeds iff the plan of the descriptor exists and costs no more; the unit has the descriptor's code, copies of its constants, nested units, parameter count and names; it shares nothing mutable with the host, leaves the host's heap as it was and adds at most 150000 values and elements to it; the verifier accepts all its units, as they are |
| CallableScan.Scan.HasCallable | src/builtins.c:3546-3591 | answers no iff the whole walk meets no callable, nothing deeper than the bound, and spends less than the allowance; a hit that is not marked unverified has a callable below it |
| CallableScan.WeighsIffEveryChainHarmless | src/builtins.c:3527-3538 | the walk can be weighed iff no walk over the values held reaches a callable or more than 33 values in depth, cyclic graphs included |
| CallableScan.WeightIsCost | src/builtins.c:3546-3591 | on data the scan spends exactly what isolating it costs |
| CallableScan.ScanResult | src/builtins.c:3851-3864 | a result crosses the boundary iff no walk from it ends at a function or builtin or goes deeper than the bound, and the walk spends less than the allowance; a refusal that blames a callable names a result with a function or builtin below it |
| Channel.Enqueued | src/builtins.c:4806-4808 | storing at the tail appends to the contents of the ring and keeps tail = (head + count) mod 64 |
| Channel.Dequeued | src/builtins.c:4835-4838 | taking at the head removes the oldest message |
| Channel.ChannelObject.SendSection | src/builtins.c:4802-4819 | under the mutex a send is refused when closed, waits when full, and otherwise enqueues |
| Channel.ChannelObject.RecvSection | src/builtins.c:4831-4915 | under the mutex every receive delivers the oldest message if there is one, waits if it may and the channel is open, and otherwise reports the end |
| Channel.StepKeepsFifo | src/builtins.c:4792-4926 | every step of any thread keeps: accepted messages = delivered messages followed by the buffered ones |
| Channel.SendKeepsWakeups | src/builtins.c:4802-4819 | a send loses no wakeup |
| Channel.RecvKeepsWakeups | src/builtins.c:4831-4915 | a receive, timed or not, loses no wakeup |
| Channel.CloseWakesAll | src/builtins.c:5370-5379 | after a close, or the close pass of the exit drain, nobody is asleep on the channel |
| Channel.StepKeepsInv | src/builtins.c:4792-4926 | every step, spurious wakeups and expired deadlines included, keeps both invariants |
| Channel.EveryStateKeepsInv | src/builtins.c:4691-4698 | in every state of every interleaving the ring is sound, delivery is first in first out, and no wakeup is lost |
| Channel.NothingSentAfterClose | src/builtins.c:4805-4819 | once closed, always closed, and no message is accepted any more |
| Channel.ReceiveAfterClose | src/builtins.c:4831-4842 | on a closed channel a receive returns at once, with the oldest buffered message while there is one |
| Channel.SleepersHaveReason | src/builtins.c:4802-4910 | when no woken thread is on its way, receivers sleep only on an empty open channel and senders only on a full open one |
| Utf8.EncodeIsOneChar | src/builtins.c:1220-1236 | the bytes of a scalar value are one well-formed character of section 3 of RFC 3629 that decodes to it, NUL-free unless it is 0 |
| Utf8.CharIsEncoded | src/builtins.c:1220-1236 | every well-formed character is the encoding of its scalar value, so surrogates and overlong forms are excluded |
| Utf8.ExamplesOfTheStandard | src/builtins.c:1220-1236 | the examples of section 7 of RFC 3629 encode as it says, and what it forbids is no character |
| JsonString.Reader.ReadHex4 | src/builtins.c:1245-1257 | reads four digits iff they stand before the terminator, never past it |
| JsonString.Reader.DecodeUnicodeEscape | src/builtins.c:1292-1339 | a \u escape is decoded, paired or replaced as the piece grammar says, and the position moves to its end |
| JsonString.Reader.DecodePiece | src/builtins.c:1270-1345 | one escape or plain byte is decoded as one piece; a backslash at the end truncates |
| JsonString.Reader.DecodeStringBody | src/builtins.c:1268-1349 | on any NUL-terminated text the loop terminates, reads no index past the terminator, and yields the body the grammar gives, with the error and recoverable flags it implies |
| JsonString.UnicodePieces | src/builtins.c:1292-1339 | a surrogate pair is one scalar in U+10000..U+10FFFF; an unpaired surrogate, NUL or malformed escape is U+FFFD with the flag set; any other unit is itself; each is one NUL-free UTF-8 character |
| JsonString.DecodedIsWellFormed | src/builtins.c:1268-1349 | well-formed UTF-8 in, well-formed UTF-8 out |
| JsonString.DecodedIsNulFree | src/builtins.c:1259-1349 | no decoded string holds a NUL |
| JsonString.EscapedIsOnePiece | src/builtins.c:1055-1069 | what the encoder writes for a byte decodes, as one piece, to that byte |
| JsonString.EscapedDecodes | src/builtins.c:1053-1072 | what the encoder writes for a NUL-free string decodes to that string, flags clear |
| JsonString.EscapesOfOneLetter | src/builtins.c:1270-1291 | the eight escapes of one letter decode to the characters of section 7 of RFC 8259 |
| JsonString.EscapedIsPrintable | src/builtins.c:1055-1069 | what the encoder writes for a string holds no control character |
| Json.ParseString | src/builtins.c:1351-1361 | the string parser refines the grammar |
| Json.ParseNumber | src/builtins.c:1387-1429 | a number token is taken iff it is well formed, up to its end |
| Json.ParseValue | src/builtins.c:1489-1519 | the value parser refines the grammar and restores the depth |
| Json.ParseList | src/builtins.c:1434-1452 | the array parser refines the grammar, at most 200 containers deep |
| Json.ParseEntry | src/builtins.c:1460-1478 | one key and value refine the grammar |
| Json.ParseDict | src/builtins.c:1454-1487 | the object parser refines the grammar; what that means for a repeated key is `JsonMembers.ObjectsGather` |
| Json.JsonDecode | src/builtins.c:1521-1544 | strict decoding yields a value iff the whole text is one value with no refused escape and nothing but space behind it |
| JsonGrammar.NumeralScans | src/builtins.c:1387-1429 | the number scanner takes a numeral (sign, digits, fraction, exponent) whole wherever a value may end |
| JsonGrammar.NumberTokens | src/builtins.c:1387-1429 | a text is one number token iff it is a numeral |
| JsonGrammar.TreeParses | src/builtins.c:1489-1519 | a parse tree standing anywhere in a text is read at any depth, to the value it stands for and up to its end, iff the depth allows |
| JsonGrammar.ItemsParse | src/builtins.c:1434-1452 | items of an array are read one after the other, each to its stop |
| JsonGrammar.MembersParse | src/builtins.c:1454-1487 | members of an object are read one after the other, each to its stop, and set in turn; what that comes to is `JsonMembers.ObjectsGather` |
| JsonGrammar.TreeOf | src/builtins.c:1489-1519 | whatever the value parser reads, at any place and depth, has a parse tree that stands for it |
| JsonGrammar.DecodedIffParseTree | src/builtins.c:1521-1544 | strict decoding gives a value iff the text has a parse tree that stands for it, nests at most 200 containers deep and holds no refused escape |
| JsonMembers.DictSetSets | src/eigenscript.c:2386-2420 | setting a key keeps the keys' places and all other values; the key gets the value in its place if it has one, else at the end |
| JsonMembers.ObjectsGather | src/builtins.c:1454-1487 | an object's entries have its members' keys, each once, in the order of their first members, each with the value of the last member with that key |
| JsonMembers.GatheredOnce | src/builtins.c:1454-1487 | only one list of entries has that property |
| JsonRoundTrip.EncodeString | src/builtins.c:1053-1072 | the escape loop appends the quoted text of the string |
| JsonRoundTrip.EncodeValue | src/builtins.c:1034-1121 | encoding succeeds iff the value nests no deeper than what is left of 200, and then appends its text |
| JsonRoundTrip.EncodeItems | src/builtins.c:1077-1086 | the items of a list are written in order with commas between |
| JsonRoundTrip.EncodeEntries | src/builtins.c:1087-1115 | the entries of a dictionary are written in order with commas between |
| JsonRoundTrip.TextDecodes | src/builtins.c:1489-1519 | inside any text and any depth, the encoding of a value decodes to it and ends where it ends, iff the depth allows |
| JsonRoundTrip.RoundTrip | src/builtins.c:1010-1121 | decoding the encoding of a plain value gives it back iff it nests at most 200 deep, and fails otherwise |
| JsonRoundTrip.DecodedValueIsPlain | src/builtins.c:1434-1519 | what decodes has NUL-free strings, distinct keys and at most 200 levels |
| JsonRoundTrip.DecodedReencodes | src/builtins.c:1010-1121 | whatever decodes can be encoded, and if its numbers are written as they were that text decodes to the same value |
| Scopes.ResolutionUnique | src/eigenlsp.c:1538-1557 | the scope that binds a name at a token and has no binding scope opened after it is what the name resolves to |
| Declarations.ParamsOfDefine | src/eigenlsp.c:1469-1495 | the parameters of a `define` are the identifiers of its list, outside inner brackets, with a separator between each earlier such identifier and them; the list ends at its closing parenthesis or a newline |
| Declarations.VariablesOfFor | src/eigenlsp.c:1496-1502 | the variables of a `for` are the identifiers before its `in` or the end of its line |
| Declarations.IterableMeans | src/eigenlsp.c:1515-1518 | a token is in the iterable iff it stands behind the `in` that ends the header and no INDENT comes up to it |
| Declarations.ScopeEndMeans | src/eigenlsp.c:1503-1514 | a scope ends behind the first DEDENT that balances the INDENTs from its body on |
| Declarations.BracketDepthMeans | src/eigenlsp.c:1452-1460 | the bracket depth is the largest surplus of opening brackets of any stretch of tokens that ends there |
| Declarations.ResolutionMeans | src/eigenlsp.c:1533-1557 | what a name resolves to: a scope that the reference is in and whose iterable it is not in, by a parameter, the implicit `n`, or a local declared no later in no scope further in |
| Rename.ParamResolvesToItself | src/eigenlsp.c:1469-1502 | a parameter or loop variable resolves to the scope it is declared in |
| Rename.LocalResolvesToItsScope | src/eigenlsp.c:1523-1530 | a local declaration resolves to its first declaration in the innermost scope |
| Rename.BindingAfter | src/eigenlsp.c:1597-1627 | after the edits the scope of the selected binding no longer binds its old name and binds the new one from where it bound either; it binds every other name, and every other scope binds every name, as before |
| Rename.ReferenceKept | src/eigenlsp.c:1597-1627 | where the new name is not captured, an identifier that is no member access resolves to the same scope and declaration before and after |
| Rename.EditedUncaptured | src/eigenlsp.c:1597-1627 | if a rename keeps everything, no edited token stood where its own scope or one inside it binds the new name |
| Rename.NewUncaptured | src/eigenlsp.c:1597-1627 | if a rename keeps everything, a token spelled with the new name where the binding is in effect was of a scope further in |
| Rename.OthersStay | src/eigenlsp.c:1602-1623 | members behind a dot and tokens spelled otherwise stay; what changes is spelled with the new name |
| Rename.ImplicitBroken | src/eigenlsp.c:1494-1495 | renaming the implicit `n` leaves a reference that resolves elsewhere |
| Rename.ImplicitBrokenIsInhabited | src/eigenlsp.c:1494-1495 | `define f` with the body `n`: renaming that `n` changes its binding |
| Rename.CaptureIsInhabited | src/eigenlsp.c:1602-1623 | `define f(y)` with the body `f`: renaming that `f` to `y` makes it the parameter |
| Rename.RenameIsAlphaRenaming | src/eigenlsp.c:1597-1627 | renaming to any name keeps every binding, and which references are to one variable, iff the name stays or the selected binding is not the implicit `n` and the new name is captured nowhere |
| Rename.FreshNamesAreNotCaptured | src/eigenlsp.c:1597-1627 | renaming to a name that no token has and that is not `n` keeps every binding and variable iff the selected binding is not the implicit `n` |
| RenameHandler.AddParam | src/eigenlsp.c:1413-1420 | a parameter is bound unless the name is already |
| RenameHandler.AddLocal | src/eigenlsp.c:1425-1435 | a local is bound at the earliest of its declarations |
| RenameHandler.ScanParams | src/eigenlsp.c:1476-1493 | the token loop binds exactly the names of the parameters that `Declarations.ParamsOfDefine` describes |
| RenameHandler.ScanLoopVars | src/eigenlsp.c:1497-1502 | the token loop binds exactly the loop variables of the header |
| RenameHandler.BuildScopes | src/eigenlsp.c:1452-1532 | the table lists every scope once, in order, with its extent, its excluded iterable and its bindings |
| RenameHandler.FindInnermost | src/eigenlsp.c:1438-1444 | the scope found is the innermost one around the token |
| RenameHandler.ResolveBinding | src/eigenlsp.c:1538-1557 | the loop over the table finds the binding that resolution gives, or none |
| RenameHandler.RenameEdits | src/eigenlsp.c:1597-1627 | the edits are, in order and once each, exactly the references of the selected binding |
| LruSlots.SlotTable.Assign | src/builtins_host.c:677-695 | a held name keeps its slot, any other takes the first of the least recently used, and only that slot changes |
| LruSlots.EvictsOnlyOld | src/builtins_host.c:685-692 | within a run of no more distinct names than slots, an eviction takes a slot not used in the run |
| LruSlots.RunIsFaithful | src/builtins_host.c:678-682 | throughout such a run every name seen still sits in the slot it was given |
| LruSlots.SlotsFaithfulIffFewNames | src/builtins_host.c:449-454 | over any run from any table, slots tell names apart iff the run has no more distinct names than there are slots |
| LruSlots.AssignRun | src/builtins_host.c:668-695 | the slots the stream loop gives out have that property |
| LruSlots.IdsNeverCollide | src/builtins_host.c:693-704 | ids of token types, builtin names, slots and integer literals never coincide |
| LruSlots.EveryIdUsed | src/builtins_host.c:693-704 | the id regions leave no gap |
| Matmul.FlatInside | src/builtins_tensor.c:79-85 | flat indices of a matrix are in bounds for all sizes |
| Matmul.FlatDistinct | src/builtins_tensor.c:79-85 | different cells have different flat indices |
| Matmul.OneProduct | src/builtins_tensor.c:83-85 | one innermost step advances exactly one cell by its next product |
| Matmul.AddTile | src/builtins_tensor.c:79-87 | the three inner loops add one tile's products in ascending order to every cell of the tile |
| Matmul.Tiled | src/builtins_tensor.c:72-91 | the six loops compute the naive left fold over ascending kk for every cell, for any addition and multiplication |
| Matmul.MatmulBuf | src/builtins_tensor.c:64-92 | the kernel is that fold for all m, k, n |
| Matmul.MatmulAtBuf | src/builtins_tensor.c:100-127 | it is the plain product of the explicitly transposed left operand, addition by addition |
| Matmul.MatmulBtBuf | src/builtins_tensor.c:129-156 | it is the plain product of the explicitly transposed right operand, addition by addition |
| Matmul.EqualCellsEqualProducts | src/builtins_tensor.c:93-99 | how the operands are stored does not change the product |
| Matmul.ProductWithIdentity | src/builtins_tensor.c:64-92 | with operations that have a zero and a one, the product with the identity matrix, on either side, is the matrix, row by row |
| Scatter.ScatterAdd | src/builtins_tensor.c:861-946 | two in-place passes compute the specification, including which error of which step is raised |
| Scatter.OneStep | src/builtins_tensor.c:906-942 | one step of either pass keeps what the passes have in common with the specification, or raises its error |
| Scatter.SecondPassCannotFail | src/builtins_tensor.c:904-906 | a first pass without error means no error in the second, unless the destination is a vector and its own indices; each step of the second pass finds what the first found |
| Scatter.OwnIndicesHalfUpdate | src/builtins_tensor.c:904-942 | with a vector as its own indices, a raise can leave it half updated |
| Scatter.AllOrNothingIffIndicesAreApart | src/builtins_tensor.c:904-906 | for a destination of any shape and indices of any kind: a raise leaves the destination untouched, whatever it holds and whatever is added, iff the indices are not the destination itself or it is a matrix |
| Scatter.OwnValuesAreReread | src/builtins_tensor.c:928-929 | with a vector as its own values, a later step adds what an earlier one wrote |
| Scatter.AccumulatesIffValuesAreApart | src/builtins_tensor.c:855-860 | for a destination of any shape and values of any kind: every cell gains exactly the sum of the values sent to it, repeated indices included, whatever the destination holds, iff the values are not the destination itself or it is a matrix |
| Scatter.ScatterMeans | src/builtins_tensor.c:848-860 | with lists of indices and values it succeeds iff they are numbers, as many of each and, for a matrix, as it has rows, and every truncated index names a cell of the vector or a column of its row; each cell then gains the sum of the values that lead to it |
| Scatter.ScatterErrs | src/builtins_tensor.c:904-942 | otherwise the error raised is the fault of the first pair that is not in order, the index looked at first |
| Scatter.ScalarIsRepeated | src/builtins_tensor.c:848-860 | one number for all is that number for each |
| Scatter.Gather | src/builtins_tensor.c:1323-1347 | one element per row up to the shorter of rows and indices, the first bad index raised, zeros for a buffer that is no matrix |
| Scatter.GatherMeans | src/builtins_tensor.c:1323-1347 | gather answers for the first rows or indices, whichever are fewer, iff each truncated index names a column of its row, with the cells named, in order; zeros from a vector |
| Scatter.PicksWeighTheAdditions | src/builtins_tensor.c:1331-1346 | from any row on, the inner product of the picks with the values is what the additions add to the inner product with the tensor |
| Scatter.ScatterIsAdjointOfGather | src/builtins_tensor.c:888-946 | with one index per row: gather raises iff scatter_add does, and otherwise <gather(T, ix), v> = <T, scatter_add(0, ix, v)> |
| BundleFormat.IntegersReadBack | src/bundle.c:178-180 | little-endian integers of any width read back |
| BundleFormat.LittleEndianDigits | src/bundle.c:205-211 | byte i of an integer is its digit of weight 256 to the i |
| BundleFormat.HeaderReadsBack | src/bundle.c:205-211 | an entry header read where it was written gives its path and size |
| BundleFormat.BrokenHeader | src/bundle.c:121-132 | a header that the file breaks off does not read |
| BundleFormat.TrailerReadsBack | src/bundle.c:172-189 | the trailer of a bundle is found and gives the archive's offset and entry count |
| BundleScan.ScanBuffer | src/bundle.c:147-164 | one buffer's loop finds a believable head iff one stands at a place it covers |
| BundleScan.Fill | src/bundle.c:145-146 | reading behind the carried bytes leaves the buffer holding the bytes read last |
| BundleScan.Slide | src/bundle.c:166-167 | the carried bytes are the last ones of the buffer |
| BundleScan.ScanForHead | src/bundle.c:136-169 | for reads of any sizes, the scan answers as a place-by-place scan of the whole file does |
| Bundle.CopyStream | src/bundle.c:193-203 | copies exactly the bytes asked for, or fails iff the source has fewer |
| Bundle.EmitFile | src/bundle.c:214-227 | appends one header and the contents |
| Bundle.Create | src/bundle.c:275-359 | the file written is the image, head, entries and trailer, or creation fails because the executable's own trailer is bad |
| Bundle.UnpackEntry | src/bundle.c:486-502 | one entry is unpacked, or found torn, as the format says |
| Bundle.UnpackEntries | src/bundle.c:485-506 | the loop unpacks the entries in order or refuses all |
| Bundle.Start | src/bundle.c:430-540 | how a runtime starts on any file: as an interpreter, as the bundled script, or not at all; which paths it takes is `Confinement.TakenIff` |
| Bundle.EntriesReadBack | src/bundle.c:485-506 | written entries unpack iff all their paths are legal, to the same contents |
| Bundle.BundleReadsBack | src/bundle.c:285-359 | a written bundle starts with exactly its entries iff every path is taken (`Confinement.TakenIff`), and is refused otherwise |
| Bundle.NamesSurviveIffShort | src/bundle.c:496-498 | the entries come back unchanged iff no path is longer than 2000 bytes |
| Bundle.LongNameIsCut | src/bundle.c:496-498 | a legal path of 2001 bytes, in directories with names of 100, is unpacked without its last letter |
| Bundle.RebundlingIffImageIsBare | src/bundle.c:285-294 | bundling from a bundle equals bundling from its image iff the image ends in no trailer, or in one that names the image's own end; a trailer that names any other end, or a wrong format, makes them differ |
| Bundle.TruncationIsRefusedIff | src/bundle.c:55-65 | a bundle cut anywhere, its trailer gone, is refused exactly when enough of the first entry is left to recognize it, or something else in what is left looks like a head |
| Bundle.AccentedTruncationIsNotRefused | src/bundle.c:55-65 | for every image whose bundle holds the head magic once: a bundle whose script has a name outside ASCII, cut inside the script, is taken for an interpreter |
| Bundle.AccentedElf | src/bundle.c:55-65 | there is such an image, and it starts as an ELF file does |
| Confinement.BundlesStayInTheirDirectory | src/bundle.c:493-502 | whatever file a runtime starts from as a bundle, every path it unpacks to, cut or not, is relative, and a walk along its components from the extraction directory is above it at no step |
| Confinement.TakenIff | src/bundle.c:486-494 | a path is taken iff it has 1 to 2047 bytes, does not start with a slash, and no component has two dots in a row |
| Confinement.DotsInNamesAreRefused | src/bundle.c:493-494 | "a..b" leads nowhere else and is refused |
| Arena.Arena.Alloc | src/arena.c:146-180 | where an allocation goes and how every field changes: bump, next block, new block, or overflow |
| Arena.Arena.FreeFrom | src/arena.c:200-206 | the strings and overflow blocks from the given ones on are freed, in order and once |
| Arena.Arena.ResetToMark | src/arena.c:199-228 | everything behind the mark is freed or taken back |
| Arena.Arena.Destroy | src/arena.c:230-240 | everything held is freed |
| Arena.InBoundsIffAllowed | src/arena.c:149-168 | an allocation is in the arena's memory iff it fits the block it goes to and does not bump past the last block |
| Arena.NewPlace | src/arena.c:149-177 | a new place is aligned, in bounds, and disjoint from everything behind the bump pointer |
| Arena.StepKeepsSound | src/arena.c:146-228 | every allowed step keeps all live memory aligned, in bounds, pairwise disjoint and behind the bump pointer |
| Arena.RunsAreSound | src/arena.c:146-228 | over every run of allowed steps |
| Arena.AllLandInBoundsIffAllAllowed | src/arena.c:146-180 | over any run, every allocation lands in the arena's memory iff each was allowed where it happened |
| Arena.UniformRunsAreAllowed | src/arena.c:146-180 | allocations of one size that fits a block are always allowed |
| Arena.MixedSizesLeaveTheArena | src/arena.c:149-168 | after an overflow, a smaller allocation takes an address in a block that does not exist |
| Arena.StepKeepsBalance | src/arena.c:146-228 | every step, allowed or not, keeps what is held plus what was freed equal to what was handed out |
| Arena.EverythingIsFreedOnce | src/arena.c:199-240 | over any run followed by destruction, each tracked string and each overflow block is freed exactly once |
| Arena.ResetUndoesTheRun | src/arena.c:191-228 | mark, any run without a mark, reset: live memory, strings, overflow blocks and bump pointer are as at the mark, and exactly the strings tracked and the overflow blocks handed out since are freed |
| Buffers.WindowAcceptedIffInside | src/builtins_buf.c:566-574 | the 64-bit check by subtraction accepts exactly the windows inside the buffer |
| Buffers.SumAcceptedOutsideIffWrapped | src/builtins_buf.c:520-526 | the same check by addition would accept a window outside exactly when the sum wraps |
| Buffers.BufCopy | src/builtins_buf.c:581-597 | both windows are checked before anything moves, and the destination window gets the old source window even when the buffers are one |
| Buffers.AvailableIffInside | src/builtins_buf.c:865-866 | sample i of a channel is one of the samples counted, without a bound on integers, iff it lies in the buffer |
| Buffers.CountExactIffNoWrap | src/builtins_buf.c:846-847 | the count computed in 64 bits is that count iff the sum under the division does not wrap, and is never more |
| Buffers.HugeChannelCount | src/builtins_buf.c:846-847 | for 2000 samples and 2^63-1024 channels the count comes out as -1 instead of 1 |
| Buffers.Deinterleave | src/builtins_buf.c:819-866 | with the count of 64 bits: the samples of the channel in order, all or the first count of them, or the error, or a buffer of a negative count |
| Buffers.DeinterleavesIffNoWrap | src/builtins_buf.c:846-860 | the answer is the intended one, whatever count is asked for, iff the sum does not wrap |
| Buffers.EveryIndexOnce | src/builtins_buf.c:816-818 | every source index is one sample of one channel and of no other |
| Buffers.ChannelsShareTheBuffer | src/builtins_buf.c:846-847 | the channels' sample counts add up to the buffer's length |
| Buffers.ReinterleavingRestores | src/builtins_buf.c:816-818 | only the source itself has these channels |
| Resample.PositionInside | src/builtins_buf.c:910-925 | every position lies between the first and the last sample |
| Resample.ResampleLinear | src/builtins_buf.c:883-931 | the loop with its clamps computes the interpolation without them: no clamp ever moves an index |
| Resample.EndpointsStay | src/builtins_buf.c:868-875 | the first and last samples are kept when at least two are asked for |
| Resample.SameLengthIsIdentity | src/builtins_buf.c:868-875 | resampling to the same length changes nothing |
| Resample.BetweenNeighbours | src/builtins_buf.c:914-928 | every sample lies between its two neighbours in the source |
| Resample.StraightLinesStay | src/builtins_buf.c:868-875 | samples of a straight line stay on that line |
| Resample.SpreadAndBack | src/builtins_buf.c:868-875 | spreading every interval over f and taking every f-th sample again restores the source |

## Left out

- The values that handlers compute, environments, JIT, compiler, parser, cycle collector and observer machinery: of the interpreter only the operand stack, the code and tables that handlers touch, jumps and the handler bookkeeping of a frame are modelled.
- Frames.StepAsTabled: a call is one step, the callee having a frame of its own; an instruction that raises touches no more than one that does not, and where it goes then is `Raises`; the guard of the whole stack at 65536 slots raises.
- Raises.RaisesAreSafeIffUndrained: holds for any heights that raises may leave, and which these are for each instruction is decided in the interpreter, which is not modelled; errors that unwind through several frames are not modelled either.
- `chunk_arm_temporal`, the observer scans and the leaf-accessor recognizer: bit collection over the same walk as the static-load scan.
- The trusted build without a `DescVerify` context, release of half-built objects, and chunk names: no part of the isolation argument.
- ConstPool.Pool.Add: `& mask` is modelled as the remainder by the table's size, which is a power of two, and the hash functions are arbitrary.
- Handles, scheduling of threads and trace tapes around channels: a channel is its ring, mutex and two wait sets, and messages are opaque.
- JsonRoundTrip.RoundTrip: assumes of the numbers that occur in the value that `strtod` gets them back from their text (`JsonRoundTrip.Exact`), because neither is modelled; -0.0, written as "0", is not such a number. `true` and `false` are the numbers they decode to.
- JSON encoding of functions, builtins and buffers as `null` and of text builders as strings, and cyclic lists (stopped by the same depth bound): values are finite trees of plain data.
- Rename.RenameIsAlphaRenaming: for streams whose scope headers open no scope and declare no local, and a new name that is one identifier, as the handler does not check; the fixed caps (256 scopes, 32 bindings a scope, 48 bytes a name) and the protocol around the rename are not modelled.
- Corpus building apart from the slot table and the id regions.
- Rounding and `num_guard`: `Scatter` and `Resample` compute over the reals, where a conversion to an index truncates; the matrix kernels assume nothing about arithmetic.
- Scatter.Gather: covers buffers with an index vector; a scalar index and list tensors are one-branch reads.
- The file system around bundles: directory walks, temporary directories, permissions, limits on the names of files, and a path that cannot be created; an entry is its path and contents, and the extracted script's arguments are not modelled.
- Bundle.TruncationIsRefusedIff: assumes that what is left does not end in the trailer's magic, because then the probe for a trailer decides.
- The head magic's scrambled storage in the runtime image: the model holds the plain bytes.
- Arena contents, `size_t` overflow of a request and the Valgrind annotations: a place is a block and a range.
- Allocation failure everywhere, and 32-bit overflow of counts that no memory could hold.
