# NC: verified models of the compiler core and the runtime

NC is a small compiled language with a Python front end, an LLVM back end and a C runtime. This
project models the parts whose correctness rests on an argument rather than on a reading of one
function, and proves those arguments for every input, every run or every reachable state.

| file | what it is about |
|---|---|
| `RuntimeMap.dfy` | the hash map of the runtime: open addressing, tombstones, doubling; it refines a mathematical map |
| `KeyHash.dfy` | the hash and equality generated for map keys, and why they give the map what it assumes |
| `GarbageCollector.dfy` | conservative mark and in-place list sweep: exactly the reachable blocks survive |
| `SchedulerModel.dfy`, `SchedulerRuns.dfy`, `SchedulerCalls.dfy` | the green-thread scheduler, handoff mutex and timers as a step machine, what holds over its runs, and what each call is for |
| `GreenScheduler.dfy` | the same operations on linked queues, each proved to take exactly one step of the machine |
| `Structured.dfy`, `BasicBlocks.dfy`, `Lowering.dfy` | the structured language, the basic blocks, and the translation between them |
| `OperatorLaws.dfy` | what the operators compute, which the structured meaning and the blocks share |
| `LoweringShape.dfy`, `LoweringCorrect.dfy`, `LoweringTheorem.dfy` | the translation preserves meaning |
| `Typing.dfy` | what the type checker accepts; accepted programs keep their types, never miss a match arm and fail in divisions only |
| `LoweringBuilder.dfy` | the code generator in its own imperative form, proved equal to that translation |
| `DeferredExits.dfy` | deferred blocks and the dispatch loop of every exit: for which programs every exit runs everything deferred |
| `TypeRefs.dfy`, `TypeStrings.dfy`, `TypeRoundTrip.dfy` | the canonical type string, its parser, and the exact round trip |
| `TypeTokens.dfy`, `SurfaceTypes.dfy`, `SurfaceText.dfy` | the surface form of types, the token parser and the lexer below it, and their exact round trip |
| `AliasExpansion.dfy` | expansion of type aliases: termination, cycles, and what the result is |
| `TypeRules.dfy` | the capability checks with one shared visited set |
| `Graphs.dfy`, `StructRecursion.dfy`, `StructLayout.dfy`, `ImportLoader.dfy` | depth-first walks: direct recursion of structs, the layout it makes possible, and the import loader |
| `RuneText.dfy` | runes as bytes, and the order of strings |
| `Prelude.dfy` | `Option`, `Distinct` and two facts about products and quotients |

`dafny verify dfyconfig.toml` checks everything.

## Conventions

Code that updates state in place is a class or a method with loops, proved against a function of the
old state; what the function guarantees is then proved about it as lemmas. Code made of expressions
is functions. Words are unbounded unless a width matters; where it does (i32 arithmetic, the 64-bit
hash, the 64-bit deadline) the wrap-around is written out. Errors the original raises are results.
Clocks, allocation addresses and data-dependent choices are parameters.

## Findings

Six statements one would expect are false of the code. Each is kept as the code has it, shown by a
concrete input, and replaced by the exact condition.

* **Deferred blocks can be forgotten.** The language promises that `ret`, `err` and the normal end run
  everything deferred, last first (`design.md:288`). An exit compares only with the sites emitted before
  it, so in `for c { if d { ret } defer { ... } }` the second turn can leave without running what the
  first one deferred (`DeferredExits.ForgetfulLoop`). Condition, on the source: in no loop an exit stands
  before a defer that a completing turn may pass. As far as the stack of waiting sites reaches, whatever
  its size, every run keeps the promise if and only if this holds (`DeferredExits.NothingForgottenExactly`).
* **Deferred blocks can overrun the frame.** The stack of waiting sites has 1024 entries
  (`compiler/llvm_codegen.py:505`) and `defer` does not look at the depth, so the 1025th turn of
  `for c { defer { ... } }` writes behind its end (`DeferredExits.HoardingLoop`). Condition, on the source:
  a stack of a given size is never overrun if and only if no more defers than that can wait
  (`DeferredExits.OverrunExactly`). A loop that can forget can also go on deferring, so with the 1024
  entries of the original every run keeps the promise if and only if at most 1024 defers can wait
  (`DeferredExits.DeferredRunExactly`).
* **A struct with a pointer field is accepted as a map key and cannot be hashed.** The generator
  recognises pointers only in types that arrive as strings (`compiler/llvm_map.py:220`); the key type of
  a map does, the field types of a struct are parsed types. With `struct K { p: *Node }`, `map[K, i32]`
  passes the check and stops the generator (`KeyHash.PointerFieldRefused`). Condition: a key type is
  generated if and only if it is accepted and no pointer is inside one of its fields
  (`KeyHash.AcceptedKeysGenerated`).
* **A value function whose last expression always returns is not emitted.** `if c { ret 1 } else { ret 2 }`
  at the end passes the type checker (`compiler/typecheck.py:1434-1436`), but the join block is already
  closed by `unreachable` when the implicit return is emitted (`compiler/llvm_control_expr.py:38-40`,
  `compiler/llvm_function.py:276-283`), and the IR builder is taken to refuse a second
  terminator (`LoweringTheorem.ReturningBranchesRefused`). Condition: `LoweringTheorem.ClosedBlockExact`.
* **A name declared again inside its own initializer is misread.** In
  `let x = if true { let x = 1; 7 } else { 2 }; ret x` the structured meaning is 7 and the emitted
  blocks return 1: the generator binds a name before it emits the initializer
  (`compiler/llvm_codegen.py:535-541`), `if` does not restore the bindings
  (`compiler/llvm_control_expr.py:95-104`), and the type checker declares the name only after it has
  walked the initializer (`compiler/typecheck.py:1309-1322`), so it accepts the program
  (`LoweringTheorem.RedeclaredInitializerMisread`). The lowering theorem therefore asks that no name is
  declared again while it is taken, its own initializer included. That is sufficient, not necessary: a
  second binding that no later read at run time reaches does no harm, and which reads happen is not a
  matter of the program text. The weaker condition that every use finds the same declaration in scope and
  in the bindings is not stated.
* **Two types can have one string.** The two parsers of types give a trailing `err` to different
  functions of a nested function type: the string parser to the outermost, the token parser to the
  innermost. So each round trip holds for the types whose flags along the spine have the fitting order,
  and for no others (`TypeRoundTrip.StringRoundTrip`, `SurfaceTypes.TokenRoundTrip`), and otherwise two
  different types have one string and count as the same (`TypeRoundTrip.FlagMoves`).

## Model

| member | source | states |
|---|---|---|
| RuntimeMap.SevenTenthsNeverExact | runtime/ncrt.c:558 | with a power of two as capacity the load is never exactly seven tenths |
| RuntimeMap.LoadTestIsExact | runtime/ncrt.c:558-560 | the comparison of doubles with the rounded constant decides the same as `10 * used > 7 * cap` |
| RuntimeMap.AbsentAtEmpty | runtime/ncrt.c:586-601 | a probe that has missed so far and meets an empty slot proves the key absent: the cyclic probe-chain invariant |
| RuntimeMap.FullTurnHits | runtime/ncrt.c:544-552 | with an empty slot left no probe goes round without meeting it or the key, so the unbounded loop of rehash ends |
| RuntimeMap.HomeIsRemainder | runtime/ncrt.c:511-513 | a probe starts at what is left of the hash modulo the capacity |
| RuntimeMap.FirstFree | runtime/ncrt.c:566-577 | the first slot on the way that is not live is a tombstone if and only if a tombstone comes before any empty slot |
| RuntimeMap.BuriedAhead | runtime/ncrt.c:626-632 | a deleted key leaves a tombstone that its next put meets before any empty slot |
| RuntimeMap.FillSlot | runtime/ncrt.c:566-576 | filling an empty slot or reusing a tombstone on the key's own path keeps the table a picture of the map with the pair added, and keeps every probe chain |
| RuntimeMap.BurySlot | runtime/ncrt.c:626-632 | a tombstone in place of a live pair keeps every other chain whole |
| RuntimeMap.LivePairsEnumerate | runtime/ncrt.c:644-655 | the live slots in index order are each pair of the map exactly once |
| RuntimeMap.NcMap.constructor | runtime/ncrt.c:523-529 | a zeroed header is a valid empty map |
| RuntimeMap.NcMap.Init | runtime/ncrt.c:515-521 | sixteen empty slots, no tombstones and the empty map |
| RuntimeMap.NcMap.Free | runtime/ncrt.c:523-529 | back to the zeroed header and the empty map |
| RuntimeMap.NcMap.FreeSlotFor | runtime/ncrt.c:543-552 | the unbounded probe ends at an empty slot on the key's path |
| RuntimeMap.NcMap.Rehash | runtime/ncrt.c:531-554 | doubling keeps the map and its size and drops all tombstones |
| RuntimeMap.NcMap.PutProbe | runtime/ncrt.c:561-583 | the map gets exactly this pair; an absent key goes to the first slot on its way that is not live, so one more slot is used if and only if that one was empty, and none for a present key |
| RuntimeMap.NcMap.MakeRoom | runtime/ncrt.c:556-560 | the table doubles, and loses its tombstones, if and only if it is over seven tenths full; the map stays |
| RuntimeMap.NcMap.Set | runtime/ncrt.c:556-584 | on every valid header, zeroed ones included, the map afterwards is the old one with the pair set; the capacity and the number of used slots are as the load test and the reuse of a tombstone say |
| RuntimeMap.NcMap.Lookup | runtime/ncrt.c:586-601 | finds a key if and only if the map has it, and answers with its value |
| RuntimeMap.NcMap.Get | runtime/ncrt.c:607-612 | the value of the key, or zero when it is missing |
| RuntimeMap.NcMap.Has | runtime/ncrt.c:614-616 | whether the map has the key |
| RuntimeMap.NcMap.Delete | runtime/ncrt.c:618-635 | the map afterwards lacks exactly this key; capacity, entries and used slots stay, and the next put of the key meets a tombstone first |
| RuntimeMap.NcMap.Churn | runtime/ncrt.c:556-635 | putting and deleting one key any number of times leaves the map as it was, doubles the table at most once, and not at all if one more slot fits the load |
| RuntimeMap.NcMap.Clear | runtime/ncrt.c:637-642 | the empty map in the same table |
| RuntimeMap.NcMap.Next | runtime/ncrt.c:644-655 | the first live slot at or after the cursor, or -1 if there is none |
| RuntimeMap.NcMap.ForIn | runtime/ncrt.c:644-655 | following the cursor from 0 yields every pair exactly once |
| RuntimeMap.NcMap.Apply | runtime/ncrt.c:603-642 | each operation answers and changes the map as its mathematical counterpart does |
| RuntimeMap.NcMap.Run | runtime/ncrt.c:515-642 | any run of set, get, has, delete and clear answers what a mathematical map answers; `10 * (len + tombstones) <= 7 * cap + 10` after it, and after p puts `7 * cap <= max(112, 20 * p)` whatever was deleted |
| KeyHash.HashString | compiler/llvm_map.py:194-215 | the emitted loop mixes exactly the bytes of the string, in order, modulo 2^64 |
| KeyHash.SameBytesExact | runtime/ncrt.c:259-267 | the byte comparison of equal lengths is equality of the bytes, wherever they are stored |
| KeyHash.EqExact | compiler/llvm_map.py:226-251 | generated equality holds if and only if the keys mean the same, through nested structs and with strings by their bytes |
| KeyHash.HashExact | compiler/llvm_map.py:182-224 | keys that mean the same have the same wrapped 64-bit hash, from any starting state |
| KeyHash.MixTellsApart | compiler/llvm_map.py:182-191 | two words mixed into one state, and one word mixed into two states, give different states |
| KeyHash.OneByteTells | compiler/llvm_map.py:194-215 | two texts that differ in one byte hash differently from the same state |
| KeyHash.HashKeepsApart | compiler/llvm_map.py:193-224 | hashing any key from two different states gives different states |
| KeyHash.OneFieldTells | compiler/llvm_map.py:216-219 | two structs that differ in one word hash differently |
| KeyHash.WordsHashApart | compiler/llvm_map.py:144-160 | the descriptor's hash never maps two words to one number |
| KeyHash.StringsHashApart | compiler/llvm_map.py:144-160 | nor two strings that differ in one byte, wherever they are stored |
| KeyHash.EmptyHash | compiler/llvm_map.py:155-160 | the empty string hashes to the offset basis of 64-bit FNV-1a |
| KeyHash.DescriptorMeetsAssumption | compiler/llvm_map.py:144-180 | every generated descriptor meets what the runtime map asks of hash and equality |
| KeyHash.AcceptedKeysGenerated | compiler/llvm_map.py:193-224 | the generator can hash a key type if and only if the checker accepts it and no pointer is inside one of its struct fields, at any depth |
| KeyHash.FieldGenerated | compiler/llvm_map.py:216-224 | for the type of a field: if and only if it is accepted and no pointer is reached from it, itself included |
| KeyHash.PointerFieldRefused | compiler/llvm_map.py:220-224 | a struct with a pointer field: accepted by the checker, refused by the generator, although the pointer alone is a key |
| KeyHash.PointerInFields | compiler/llvm_map.py:216-219 | a pointer is inside a struct if and only if one is reached from a field |
| KeyHash.ForbiddenInside | compiler/type_rules.py:92-97 | a struct is forbidden as a key if and only if one of its fields is |
| GarbageCollector.ClosedMarksAreExact | runtime/ncrt.c:166-174 | rooted marks that are closed under following words are exactly the reachable blocks, cycles, sharing and interior pointers included |
| GarbageCollector.MarkThrough | runtime/ncrt.c:143-148 | marking a block and then everything its words lead to is marking from the pointer |
| GarbageCollector.MarkingIsExact | runtime/ncrt.c:169-174 | marking from all root slots marks exactly the reachable blocks |
| GarbageCollector.Heap.FindBlock | runtime/ncrt.c:122-131 | the first block in list order that contains the address, interior addresses included, or none |
| GarbageCollector.Heap.MarkPtr | runtime/ncrt.c:143-148 | terminates on cyclic heaps, marks what the pointer leads to, leaves words and list alone |
| GarbageCollector.Heap.ScanBlock | runtime/ncrt.c:135-141 | marks what the words of the block lead to |
| GarbageCollector.Heap.MarkRoots | runtime/ncrt.c:169-174 | afterwards the marks are exactly the blocks reachable from non-null root slots |
| GarbageCollector.Heap.Sweep | runtime/ncrt.c:176-189 | the list becomes its marked part in the same order, all marks are cleared, the live count is its length |
| GarbageCollector.Heap.Collect | runtime/ncrt.c:166-190 | a block survives if and only if it is reachable; the survivors keep their order and all words are untouched; roots are unchanged and the allocation counter is reset |
| GarbageCollector.Heap.Alloc | runtime/ncrt.c:107-120 | a new zeroed block of at least one byte at the head; the rest is the old list, collected first if and only if the bytes since the last collection reach 65536 with this block, which then count from it, and otherwise grow by it |
| GarbageCollector.Heap.AllocAll | runtime/ncrt.c:107-120 | over any run of allocations one collects if and only if it brings the bytes handed out since the last collection to 65536, and the counter is always the sum of the block sizes handed out since then |
| GarbageCollector.LastIsLast | runtime/ncrt.c:107-120 | the collection counted from is the last one before |
| GarbageCollector.CoversItsBytes | runtime/ncrt.c:122-131 | an address points into a block if and only if it is that of one of its bytes |
| GarbageCollector.Heap.PushRoot | runtime/ncrt.c:196-206 | the slot goes on top and its index is the handle |
| GarbageCollector.Heap.DropRoot | runtime/ncrt.c:217-221 | a valid handle's slot is nulled, an invalid one changes nothing |
| GarbageCollector.Heap.Rewind | runtime/ncrt.c:227-231 | back to the mark, or nothing if the mark is above the stack |
| GarbageCollector.Heap.RunFrame | runtime/ncrt.c:223-231 | in frames that push, nest and rewind, every registered slot is on top of the stack from then on, a call starts from the stack it finds, and the whole leaves the stack as it was |
| SchedulerModel.StepInv | runtime/ncrt.c:904-1016 | every spawn, yield, lock, unlock, sleep, exit and turn keeps the inventory, ownership and count invariant |
| SchedulerModel.WakeInv | runtime/ncrt.c:1375-1385 | waking sleepers keeps it |
| SchedulerModel.DispatchInv | runtime/ncrt.c:1145-1168 | dispatching the next thread keeps it |
| SchedulerModel.OwnershipKept | runtime/ncrt.c:1321-1351 | every step keeps: one holder at most, locked if and only if held, waiters only at a locked mutex |
| SchedulerModel.CountKept | runtime/ncrt.c:930-994 | every step keeps the live count equal to the number of unfinished threads |
| SchedulerModel.PlaceKept | runtime/ncrt.c:904-1016 | after every step each thread is in the one place its state names |
| SchedulerModel.DueExact | runtime/ncrt.c:1378 | in a sorted list the leading scan finds every timer that is due and no other |
| SchedulerModel.InsertSorted | runtime/ncrt.c:1404-1410 | insertion keeps the list sorted |
| SchedulerRuns.Inventory | runtime/ncrt.c:904-1016 | in every reachable state a thread is unfinished if and only if it runs, queues, sleeps or waits at a mutex, and it is in one of these places only |
| SchedulerRuns.MutualExclusion | runtime/ncrt.c:1321-1351 | in every run at most one thread holds a mutex, it is locked exactly while held, and waiters imply locked: a handoff never passes through an unlocked state |
| SchedulerRuns.VerdictExact | runtime/ncrt.c:1147-1163 | the loop reports a deadlock if and only if threads remain and all of them wait at mutexes, and returns if and only if all have finished |
| SchedulerRuns.DeadlockIsFinal | runtime/ncrt.c:1156-1160 | after that verdict nothing the program does can ever run a thread again |
| SchedulerRuns.WaiterMovesUp | runtime/ncrt.c:1335-1346 | after j unlocks the waiter at position k is at position k - j, whatever else happens |
| SchedulerRuns.FirstComeFirstServed | runtime/ncrt.c:1333-1351 | the waiter at position k owns the mutex after exactly k + 1 unlocks |
| SchedulerRuns.LockReturnsOwning | runtime/ncrt.c:1328-1330 | a thread that parked in lock owns the mutex when it runs again |
| SchedulerRuns.RunnerMovesUp | runtime/ncrt.c:904-924 | after j dispatches the runner at position k is at position k - j, whatever is spawned, yielded or woken |
| SchedulerRuns.BoundedDispatch | runtime/ncrt.c:1145-1168 | the runner at position k is dispatched after exactly k other dispatches |
| SchedulerRuns.ScanIsFilter | runtime/ncrt.c:1378-1384 | splitting a sorted list at the scan is filtering by deadline |
| SchedulerRuns.WakeExact | runtime/ncrt.c:1375-1385 | waking moves exactly the due sleepers, in list order, to the tail of the run queue |
| SchedulerRuns.InsertStable | runtime/ncrt.c:1404-1410 | sleepers with equal deadlines stay in the order they went to sleep |
| SchedulerCalls.MutexIsLine | runtime/ncrt.c:1321-1351 | over every run a mutex is a line that lock joins at the end and unlock leaves at the head: it is locked if and only if the line is not empty, held by its first thread alone, and the others wait in line order |
| SchedulerCalls.LockTakesOrWaits | runtime/ncrt.c:1321-1331 | lock goes on, owning the mutex, if and only if nobody held it; otherwise the caller waits and nobody's ownership changes |
| SchedulerCalls.UnlockPassesOrFrees | runtime/ncrt.c:1333-1351 | after unlock the caller holds it no more: the first waiter does, or nobody |
| SchedulerCalls.FreeUntilLocked | runtime/ncrt.c:1347-1349 | a free mutex stays free and unlocked through every run without a lock on it, and the next lock takes it without waiting |
| SchedulerCalls.NewMutexIsFree | runtime/ncrt.c:1321-1327 | a new mutex is free |
| SchedulerCalls.HeldUntilUnlocked | runtime/ncrt.c:1333-1351 | who holds a mutex holds it through every run without an unlock of it |
| SchedulerCalls.SleepLasts | runtime/ncrt.c:1387-1423 | a sleeper stays asleep through every run of turns before its time and the first turn from then on wakes it; its time is now + ms, less 2^64 as often as the sum overflows |
| SchedulerCalls.SleepLastsItsTime | runtime/ncrt.c:1395 | where now + ms fits 64 bits, the sleep lasts until now + ms and no longer |
| SchedulerCalls.RunsInItsTurn | runtime/ncrt.c:931-970 | a new thread and a yielding one run after exactly those that were in the run queue |
| SchedulerCalls.ExitIsFinal | runtime/ncrt.c:982-1005 | after exit a thread is finished in every run: it never runs, queues, sleeps or waits again, and the live count is one less |
| SchedulerCalls.SampleRun | runtime/ncrt.c:904-1016 | a run that locks, sleeps and wakes: asleep at 149, running at 150, owning the mutex throughout |
| GreenScheduler.Scheduler.Push | runtime/ncrt.c:904-913 | head, tail and links spell the old queue with the thread appended |
| GreenScheduler.Scheduler.Pop | runtime/ncrt.c:915-924 | head, tail and links spell the queue without its first thread, which is the answer; null on the empty queue |
| GreenScheduler.Scheduler.Spawn | runtime/ncrt.c:931-944 | takes the spawn step |
| GreenScheduler.Scheduler.Yield | runtime/ncrt.c:957-970 | takes the yield step |
| GreenScheduler.Scheduler.Exit | runtime/ncrt.c:982-1005 | takes the exit step |
| GreenScheduler.Scheduler.Park | runtime/ncrt.c:1298-1317 | the running thread joins the end of the wait list and gives up control, no other thread changes state |
| GreenScheduler.Scheduler.Lock | runtime/ncrt.c:1321-1331 | takes the lock step: ownership or the end of the wait list |
| GreenScheduler.Scheduler.TakeWaiter | runtime/ncrt.c:1337-1340 | unlinks the first waiter, the rest stay in order |
| GreenScheduler.Scheduler.Unlock | runtime/ncrt.c:1333-1351 | takes the unlock step: handoff to the first waiter, or free |
| GreenScheduler.Scheduler.WakeExpired | runtime/ncrt.c:1375-1385 | the loop over the timer list does exactly the wake of the step machine |
| GreenScheduler.Scheduler.FindPlace | runtime/ncrt.c:1405-1408 | the link behind the last timer that is due no later |
| GreenScheduler.Scheduler.InsertTimer | runtime/ncrt.c:1397-1410 | the linked list becomes the list with the timer inserted there |
| GreenScheduler.Scheduler.Sleep | runtime/ncrt.c:1387-1423 | takes the sleep step, with the deadline modulo 2^64 |
| GreenScheduler.Scheduler.Turn | runtime/ncrt.c:1142-1175 | one turn of the loop takes the turn step and gives its verdict |
| GreenScheduler.Scheduler.DispatchNext | runtime/ncrt.c:1145-1168 | pops, runs, waits, reports or returns as the step machine decides |
| LoweringTheorem.LoweringPreservesMeaning | compiler/llvm_codegen.py:532-599 | for every function and all arguments the blocks finish with a result, get stuck, or run forever if and only if the structured call finishes with that result, faults for the same reason, or runs forever |
| LoweringTheorem.CallMatches | compiler/llvm_function.py:261-314 | the same per bound on loop turns |
| LoweringTheorem.MissingRetExact | compiler/llvm_function.py:286-295 | the generator reports a missing ret if and only if a value function does not end in an expression and its end can be reached |
| LoweringTheorem.ClosedBlockExact | compiler/llvm_function.py:276-283 | it closes a closed block if and only if a value function ends in an expression that always returns |
| LoweringTheorem.ReturningBranchesRefused | compiler/llvm_control_expr.py:38-40 | two returning branches at the end of a value function: accepted by the checker, a meaning, and no code |
| LoweringTheorem.LowersTo | compiler/llvm_function.py:275-296 | in every other case the emitted blocks are those of the body with its implicit ret written out, with a void return where the end is open |
| LoweringTheorem.ReturnTailMeans | compiler/llvm_function.py:275-285 | a trailing expression of a value function is its result |
| LoweringTheorem.EntryReady | compiler/llvm_function.py:194-201 | parameters are in their slots when the body starts |
| LoweringTheorem.EverythingCovered | compiler/llvm_codegen.py:532-599 | a function with every kind of statement is accepted and is one the theorems speak about |
| OperatorLaws.SumWraps | compiler/llvm_codegen.py:1104-1105 | + gives the one 32-bit signed number congruent to the integer sum |
| OperatorLaws.DifferenceWraps | compiler/llvm_codegen.py:1106-1107 | the same for - and the difference |
| OperatorLaws.ProductWraps | compiler/llvm_codegen.py:1108-1109 | the same for * and the product |
| OperatorLaws.SubtractionUndoes | compiler/llvm_codegen.py:1104-1107 | subtracting what was added gives the number back, also when the sum wraps |
| OperatorLaws.DivisionDefined | compiler/llvm_codegen.py:1110-1113 | / and % are undefined exactly for a zero divisor and the one quotient that does not fit |
| OperatorLaws.DivisionExact | compiler/llvm_codegen.py:1110-1113 | elsewhere quotient and remainder are the only pair with a = b q + r, r smaller than b and zero or of a's sign, and both fit |
| OperatorLaws.ComparisonsDefined | compiler/llvm_codegen.py:1124-1131 | comparing integers always gives a bool |
| OperatorLaws.Trichotomy | compiler/llvm_codegen.py:1124-1131 | exactly one of <, == and > holds; >=, <= and != are the negations |
| OperatorLaws.OrderCounts | compiler/llvm_codegen.py:1124-1131 | < is transitive, adding 1 goes up below the largest number and down at it |
| OperatorLaws.EqualityExact | compiler/llvm_codegen.py:1124-1131 | == is equality within integers and within bools |
| OperatorLaws.ConnectivesExact | compiler/llvm_codegen.py:1132-1135 | && and \|\| of bools are conjunction and disjunction |
| OperatorLaws.BranchTaken | compiler/llvm_control_expr.py:12-27 | a condition takes its second branch if and only if it is false or zero, in the meaning and in the blocks |
| OperatorLaws.FailureTold | compiler/llvm_codegen.py:1110-1113 | an operator without a result faults and gets stuck for the same reason, and on integers only / and % have none |
| Typing.SelectionIsFirstFit | compiler/llvm_control_expr.py:50-82 | match runs the first arm that fits, and falls through only if none does |
| Typing.AcceptedMatchFits | compiler/typecheck.py:519-574 | an accepted list of arms has one for every value of the scrutinee's type |
| Typing.AcceptedNamesAll | compiler/typecheck.py:533-574 | a match is accepted if and only if its patterns differ, else is last, and without else every variant is named |
| Typing.ExhaustivenessExact | compiler/typecheck.py:567-574 | over an enum the rule is exact: with different patterns and else last, an accepted match finds an arm for every variant, and a rejected one falls through for some variant |
| Typing.EvalTyped | compiler/typecheck.py:846-934 | evaluating an accepted expression in a typed store gives a value of its type and a typed store; it never misses an arm, breaks out only inside a loop, and faults only in a division or remainder |
| Typing.SelectTyped | compiler/typecheck.py:519-576 | the same for the arms that remain when some values are excluded |
| Typing.ExecTyped | compiler/typecheck.py:472-501 | the same for blocks |
| Typing.StepTyped | compiler/typecheck.py:1323-1454 | the same for statements, loops of any number of turns included |
| Typing.CoveringMatchAccepted | compiler/typecheck.py:567-574 | a match over an enum without else is accepted when it names every variant |
| Typing.OperatorRuleExact | compiler/typecheck.py:846-934 | for int and bool operands an operator is accepted if and only if all values have a result of that type or a failing division, && and \|\| for bools only |
| Typing.EverythingAccepted | compiler/typecheck.py:1306-1454 | a function with every kind of statement is accepted |
| LoweringTheorem.AcceptedCallFits | compiler/typecheck.py:1306-1454 | a call of an accepted function on typed arguments goes on, fails in a division or remainder, or returns a value of the return type, and nothing for a void one |
| LoweringTheorem.OnlyDivisionsFail | compiler/llvm_codegen.py:1101-1136 | the blocks of an accepted function get stuck in a division or remainder only |
| LoweringTheorem.UnreachableNeverReached | compiler/llvm_control_expr.py:71-75 | running the blocks of an accepted function on typed arguments, no state ever stands at an `unreachable` |
| Typing.MissingVariantFallsThrough | compiler/typecheck.py:567-574 | without else a value falls through if and only if its variant is missing |
| LoweringTheorem.RedeclaredInitializerMisread | compiler/llvm_codegen.py:535-541 | a program the checker accepts for which structured meaning and blocks differ: a name declared again in its own initializer |
| LoweringCorrect.SimExpr | compiler/llvm_control_expr.py:12-48 | running the blocks of an expression from any matching state reaches the state and value of its meaning |
| LoweringCorrect.SimIf | compiler/llvm_control_expr.py:19-48 | the same for if, with its three blocks and its phi |
| LoweringCorrect.SimMatch | compiler/llvm_control_expr.py:50-82 | the same for match, with its chain of tests and its phi |
| LoweringCorrect.SimBinary | compiler/llvm_codegen.py:1101-1136 | the same for operators, `&&` and `\|\|` strict |
| LoweringCorrect.SimBlock | compiler/llvm_control_expr.py:95-104 | the same for blocks as values |
| LoweringCorrect.SimStmt | compiler/llvm_codegen.py:532-599 | the same for every statement |
| LoweringCorrect.SimLoop | compiler/llvm_loop.py:14-27 | the same for conditional loops, for any number of turns, with break |
| LoweringCorrect.SimCount | compiler/llvm_loop.py:42-60 | the same for range loops: the end is read once, the index is loaded again every turn |
| LoweringShape.ExprShape | compiler/llvm_control_expr.py:12-48 | emitting an expression leaves finished blocks alone, keeps visible names and slots, and ends closed if and only if the expression diverges |
| LoweringShape.StmtShape | compiler/llvm_codegen.py:532-599 | the same for statements |
| LoweringShape.BlockEmittersAgree | compiler/llvm_codegen.py:526-530 | emitting a block as statements or as a value gives the same code |
| LoweringBuilder.IrBuilder.EmitExpr | compiler/llvm_control_expr.py:12-48 | the builder's mutations produce the code and operand of the translation |
| LoweringBuilder.IrBuilder.EmitIf | compiler/llvm_control_expr.py:19-48 | repositioning among three new blocks and collecting the incoming pairs gives the translation of if |
| LoweringBuilder.IrBuilder.EmitMatch | compiler/llvm_control_expr.py:50-82 | the loop over the arms with its growing incoming list gives the translation of match |
| LoweringBuilder.IrBuilder.EmitBlockValue | compiler/llvm_control_expr.py:95-104 | the loop over a block's statements gives the translation of the block |
| LoweringBuilder.IrBuilder.EmitStmt | compiler/llvm_codegen.py:532-599 | the statement cases give the translation |
| LoweringBuilder.IrBuilder.EmitForCondition | compiler/llvm_loop.py:14-27 | pushing and popping the break stack gives the translation of the loop |
| LoweringBuilder.IrBuilder.EmitForIn | compiler/llvm_loop.py:29-60 | the same for range loops, whose index is bound before the bounds are emitted |
| LoweringBuilder.EmitCallableBody | compiler/llvm_function.py:261-314 | the builder produces exactly the program the theorem is about, or one of its two errors |
| DeferredExits.NothingForgottenExactly | compiler/llvm_codegen.py:763-796 | for stacks of any size, every run that stays inside the stack executes at its exit everything deferred, last first, if and only if in no loop an exit stands before a defer that a completing turn may pass; the same without a limit |
| DeferredExits.OverrunExactly | compiler/llvm_codegen.py:745-753 | some run overruns a stack of a given size if and only if more defers than that can wait |
| DeferredExits.DeferredRunExactly | compiler/llvm_codegen.py:739-796 | with the frame's 1024 entries every run executes everything deferred, last first, if and only if at most 1024 defers can wait |
| DeferredExits.BoundedForgetsNothing | compiler/llvm_codegen.py:739-796 | where at most as many defers as there are entries can wait, no exit forgets one |
| DeferredExits.PromiseKept | design.md:288 | where no exit in a loop stands before a defer that a completing turn may pass, a run of any number of turns overruns the stack or keeps the documented promise |
| DeferredExits.PromiseBroken | compiler/llvm_codegen.py:778-792 | otherwise there are choices and a stack size for which an exit leaves something out without an overrun |
| DeferredExits.ForgetfulLoop | compiler/llvm_codegen.py:778-792 | a loop with a return before its defer forgets it |
| DeferredExits.HoardingLoop | compiler/llvm_codegen.py:745-753 | a loop that defers overruns the frame in its 1025th turn, whatever comes after |
| DeferredExits.StaysWithin | compiler/llvm_codegen.py:505-507 | with room for the most that can wait the stack never overruns, and no block leaves more waiting than counted |
| DeferredExits.WayToOverrun | compiler/llvm_codegen.py:745-753 | without that room there are choices that overrun it |
| DeferredExits.DeepestThrough | compiler/llvm_codegen.py:739-753 | the counted most is reached on some way to the end |
| DeferredExits.LateAlike | compiler/llvm_codegen.py:743-744 | a site number at or above an exit's is a defer behind that exit in the text |
| DeferredExits.ForgottenAlike | compiler/llvm_codegen.py:778-785 | the condition on the source text is the condition on the site numbers |
| DeferredExits.CodeFollows | compiler/llvm_codegen.py:739-753 | as long as the stack has room, step for step the stacked site numbers name what the source has deferred |
| DeferredExits.NoneUnknown | compiler/llvm_codegen.py:763-792 | in a safe program an exit knows every number on the stack |
| DeferredExits.DispatchExact | compiler/llvm_codegen.py:763-795 | a dispatch loop runs everything in reverse order if and only if it knows every stacked number |
| DeferredExits.WayToForget | compiler/llvm_codegen.py:778-792 | in an unsafe program an exit can be reached with a number on the stack that it does not know |
| DeferredExits.DeepEnough | compiler/llvm_codegen.py:745-753 | every run is the same on all stacks from some size on |
| DeferredExits.SiteEmitter.EmitStatements | compiler/llvm_codegen.py:526-530 | statement by statement until the block is closed, sites numbered as they are met |
| DeferredExits.SiteEmitter.EmitStatement | compiler/llvm_codegen.py:739-744 | a defer takes the next number, an exit the number of sites so far |
| DeferredExits.DeferFrame.Push | compiler/llvm_codegen.py:745-753 | with room left, the number is on top of the stack |
| DeferredExits.DeferFrame.RunDeferred | compiler/llvm_codegen.py:758-796 | the loop pops everything and runs what its comparisons find, last first |
| DeferredExits.DeferFrame.Execute | compiler/llvm_codegen.py:739-796 | the emitted code at work on the array and its top reaches what the run of the code reaches, with the same numbers waiting |
| DeferredExits.RunEmitted | compiler/llvm_codegen.py:739-796 | emitting a body and running it on a frame of its own gives the whole run the theorems are about |
| TypeRefs.FormatIsCore | compiler/type_ref.py:178-194 | the string of a type is its flag-free string followed by one ` err` per fallible function on its spine |
| TypeStrings.FindMatching | compiler/type_ref.py:123-133 | the position of the bracket that closes the one at `start`, or an error when there is none |
| TypeStrings.SplitTopLevel | compiler/type_ref.py:102-120 | the pieces between separators outside all brackets, stripped; none is empty or begins or ends with a blank |
| TypeStrings.StripTakesBlanks | compiler/type_ref.py:136-143 | stripping takes blanks from both ends and nothing else |
| TypeStrings.StripGivesText | compiler/type_ref.py:136-143 | and all of them, whatever blanks surround a text |
| TypeStrings.ParseIgnoresBlanks | compiler/type_ref.py:136-143 | blanks around a type string do not change what it parses to |
| TypeStrings.SplitJoins | compiler/type_ref.py:102-119 | the pieces with the separators between them are the text again |
| TypeRoundTrip.ParseText | compiler/type_ref.py:136-175 | parsing the flag-free string with k trailing ` err` gives the type with the flags on its first k spine functions |
| TypeRoundTrip.ListPieces | compiler/type_ref.py:102-120 | splitting a printed argument list gives back the printed arguments: every comma inside them is nested |
| TypeRoundTrip.GroupCloses | compiler/type_ref.py:123-133 | the matching bracket of a printed group is its own |
| TypeRoundTrip.IntegerForms | compiler/type_ref.py:152-156 | an array length may have a plus sign, and an underscore between two digits means nothing |
| TypeRoundTrip.StringRoundTrip | compiler/type_ref.py:136-194 | parsing a printed type gives the type with its spine flags moved outward; it gives the type itself if and only if they already are trues followed by falses, everywhere |
| TypeRoundTrip.SameTypeIsEquality | compiler/type_ref.py:225-226 | on such types being the same type is being equal; on all types it is having the same settled form |
| TypeRoundTrip.KeyIsStable | compiler/type_ref.py:221-222 | a type's key is its own key |
| TypeRoundTrip.FlagMoves | compiler/type_ref.py:161-165 | the condition is necessary: two different types with one string |
| TypeTokens.Parser.ParseType | compiler/parser.py:195-229 | the cursor ends exactly behind the type that is read, or the parse is rejected |
| TypeTokens.Parser.ParseTypes | compiler/parser.py:45-55 | items up to the end token, a trailing comma allowed |
| SurfaceTypes.ReadTokens | compiler/parser.py:195-229 | reading the tokens of a type with k trailing `err` gives the flags to its last k spine functions |
| SurfaceTypes.TokenRoundTrip | compiler/parser.py:195-235 | reading the tokens of a type before any rest that does not start with `err`, `[` or `.` gives back that rest and the type with its flags moved inward; the type itself if and only if they already are falses followed by trues, everywhere |
| SurfaceTypes.TrailingComma | compiler/parser.py:45-55 | a comma behind the last item of a list changes nothing that is read |
| SurfaceText.LexType | compiler/lexer.py:256-431 | the printed form of a type lexes to its tokens |
| SurfaceText.SurfaceRoundTrip | compiler/type_ref.py:197-214 | print, lex and parse give the type back under exactly that condition |
| AliasExpansion.Expander.ExpandName | compiler/__init__.py:35-43 | pushes, expands and pops; terminates on every alias table; on a cycle the reported path is left on the stack |
| AliasExpansion.Expander.ExpandType | compiler/__init__.py:30-45 | rewriting with the shared stack computes the expansion, and leaves the stack as it was unless it fails |
| AliasExpansion.FailsIffCyclic | compiler/__init__.py:38-39 | expansion fails if and only if an alias cycle can be reached from the type |
| AliasExpansion.CycleFound | compiler/__init__.py:38-39 | the reported path is a walk through aliases that comes back to itself |
| AliasExpansion.NoAliasLeft | compiler/__init__.py:30-45 | the result mentions no alias |
| AliasExpansion.ExpansionSettles | compiler/__init__.py:30-45 | expanding the result changes nothing |
| AliasExpansion.StackIrrelevant | compiler/__init__.py:30-45 | where expansion succeeds the stack has no influence on the result |
| AliasExpansion.ExpansionIsSolution | compiler/type_ref.py:234-255 | every solution of the alias equations gives the same type as the expansion |
| AliasExpansion.AcyclicAliasesSolved | compiler/__init__.py:68-75 | without cycles the expansions solve the alias equations, and expanding is substituting them |
| AliasExpansion.Validate | compiler/__init__.py:68-70 | the validation loop passes if and only if no alias is on or leads to a cycle, and otherwise reports one |
| AliasExpansion.ValidatedNeverFails | compiler/__init__.py:72-75 | after it no expansion can fail |
| TypeRules.KeyDecides | compiler/type_rules.py:65-98 | two types with one key are ruled on alike, so visiting by key loses nothing |
| TypeRules.Walker.ErrorType | compiler/type_rules.py:65-98 | with the shared set: terminates on cyclic structs; None means the type and all it leads to are settled, a result is a rejected type it leads to |
| TypeRules.Examine | compiler/type_rules.py:105-142 | each of the hash, zero and equality checks answers None if and only if the type has what the check is for, to any depth: hashing, a value that is all zero bits, equality |
| TypeRules.ForbiddenExactly | compiler/type_rules.py:65-142 | no forbidden type is reachable if and only if all-zero memory is a value of the type (non-null pointers, void and unknown names have none, structs need it of all fields, arrays of the element), and likewise for equality and hashing |
| TypeRules.NumbersSupported | compiler/type_rules.py:65-142 | every number has a zero and compares, floats too; only floats cannot be hashed |
| TypeRules.ChainSettled | compiler/type_rules.py:92-97 | a settled set has no forbidden type at the end of any chain of fields |
| TypeRules.UniverseClosed | compiler/type_rules.py:65-98 | only finitely many keys can be met: those inside the type and the declared fields |
| TypeRules.HashImpliesEq | compiler/type_rules.py:223-253 | whatever may be hashed may be compared, and the difference is floats only |
| StructRecursion.Checker.Visit | compiler/llvm_codegen.py:368-379 | finds a cycle of inline fields, or has visited the struct after everything inside it |
| StructRecursion.DepsExact | compiler/llvm_codegen.py:355-363 | the inline dependencies are those of the fields |
| StructRecursion.InlineDepExact | compiler/llvm_codegen.py:355-363 | the dependency of a field is the first struct behind any number of arrays |
| StructRecursion.RejectDirectRecursive | compiler/llvm_codegen.py:354-382 | accepts if and only if the graph of inline fields has no cycle; a reported path is a cycle |
| StructRecursion.FieldsBelow | compiler/llvm_layout.py:139-140 | after acceptance every field ranks below its struct, so the recursion of sizeof ends |
| StructLayout.AlignToUp | compiler/llvm_layout.py:168-169 | the least multiple of the alignment at or above the value |
| StructLayout.SizeofFields | compiler/llvm_layout.py:174-182 | the loop computes the padded end of the last field |
| StructLayout.FieldsLaidOut | compiler/llvm_layout.py:174-182 | every field is aligned, inside the struct, and ends before the next begins; its alignment divides the struct's |
| StructLayout.SizeIsAligned | compiler/llvm_layout.py:108-166 | the size of a type is a multiple of its alignment |
| StructLayout.SizesAreAbi | compiler/llvm_layout.py:57-166 | the computed size and alignment of every type are those the emitted LLVM type has when every scalar is aligned to its size, nested structs included |
| StructLayout.EntryAt | compiler/llvm_map.py:117-120 | in a map entry key, value and state are aligned and do not overlap |
| StructLayout.EntriesLaidOut | compiler/llvm_map.py:109-120 | the first entry is at the base; at every index the parts are in place, and entries do not overlap each other |
| ImportLoader.DependsExact | compiler/__init__.py:316-335 | a module depends on its imports that are loaded from source, not on built-in ones |
| ImportLoader.RequestsDecided | compiler/__init__.py:316-335 | a name is loaded from source if and only if its sources are at hand, its target fits and it is not compiler-only; compiler-only names need none; what is reported for the rest |
| ImportLoader.Loader.Load | compiler/__init__.py:308-337 | with the shared stack, set and order: appends the module after everything it imports, or explains the error |
| ImportLoader.Loader.LoadImports | compiler/__init__.py:316-335 | afterwards every import has been met and every source import is in the order, or the error is explained |
| ImportLoader.OrderHoldsReachable | compiler/__init__.py:339-345 | a finished order holds exactly the modules reachable from the entry |
| ImportLoader.LoadProject | compiler/__init__.py:308-345 | succeeds if and only if neither an import cycle nor a broken import can be reached; then the order has every reachable module once, after its imports, the entry last; with no broken import the error is the cycle error if and only if a cycle is reachable |
| RuneText.EncodesWellFormed | runtime/ncrt.c:449-473 | every Unicode scalar value is written in the well-formed form of section 3 of RFC 3629 |
| RuneText.OutsideScalars | runtime/ncrt.c:461-471 | numbers beyond Unicode are written as U+FFFD, surrogates as four bytes that are not well-formed |
| RuneText.WellFormedIsEncoded | runtime/ncrt.c:449-473 | every well-formed sequence is what the encoder writes for its value |
| RuneText.DecodesBack | runtime/ncrt.c:449-473 | decoding the bytes of a text gives its runes |
| RuneText.DecodedIsEncoding | runtime/ncrt.c:449-473 | bytes that decode are the encoding of what they decode to |
| RuneText.PrefixFree | runtime/ncrt.c:449-473 | no code is the beginning of another |
| RuneText.StrCmp | runtime/ncrt.c:269-279 | the sign of the first difference, or of the lengths |
| RuneText.EncodingOrder | runtime/ncrt.c:449-473 | the smaller rune's bytes differ first by a smaller byte |
| RuneText.TextOrder | runtime/ncrt.c:269-279 | comparing the bytes of two texts orders them by their runes, and gives 0 if and only if they are equal |

## Left out

- The multi-worker loop, stop-the-world, context switches and stack allocation: there a thread is published before its context is saved, and the model's single steps would be wrong. All scheduler statements are about the single-thread loop. Callers are assumed to run inside the scheduler and to unlock only what they hold.
- `__nc_g_check_yield` is a yield that depends on the clock; it is covered as a yield.
- Scanning of thread stacks is disabled in the original and is not part of this model. Root handles that `__nc_spawn` leaves in its caller's segment of the root stack are left out; rewinding is stated for properly nested frames.
- The growth of the root array, running out of memory, and the freeing of mutexes.
- Map headers that are copied and then share one table, and changing a map while iterating over it.
- KeyHash.AcceptedKeysGenerated: the fields of a struct are taken as parsed types, as the parser and the later passes leave them.
- Lowering: one integer type (i32) and bool; other widths, unsigned and floating-point types, bit operators, strings, calls, structs and maps are left out, as are slice and map loops. `alloca_at_entry` is one slot per site.
- Lowering, shadowing: `if` and `for` bodies do not restore bindings, hence the condition that no name is declared again while it is taken.
- LoweringTheorem.LoweringPreservesMeaning: code behind a ret or a break in the same block is left out, and so are redeclared names; the condition on names is sufficient only, as explained above.
- LoweringTheorem.UnreachableNeverReached: the typing rules are those of the modelled fragment; a literal may stand for an integer or for an enum's variant.
- DeferredExits.DeferredRunExactly: a deferred body is one event; a body that itself returns, breaks or defers is outside the statement. Conditions are free choices, so every way through the text counts as possible.
- DeferredExits.NothingForgottenExactly: `emit_block_value` does not stop behind a closed block (`compiler/llvm_control_expr.py:95-104`), so a defer behind a ret in a branch of an `if` is emitted into the closed block and still takes a site number. Such branches are outside the statement; the model drops what follows a closed block everywhere.
- Slices: the growth of append and the sharing of spare capacity.
- TypeRoundTrip.StringRoundTrip: names are non-empty and free of brackets, parentheses, commas, blanks, `*` and `?`, and generic bases are names. Python's `int()` also accepts digits outside ASCII; the model's does not.
- SurfaceText.LexType: the lexer is modelled for the characters and words that occur in types; identifiers are ASCII.
- TypeRules.Examine: names are looked up in a fixed table of structs, enums and interfaces; the rest of the type checker is left out.
- ImportLoader.LoadProject: reading directories and parsing files are a table from names to imports; a missing directory of a bundled module is not part of this model. The `linux` module's target test is one of the broken imports.
- StructLayout.SizeIsAligned: stated where both size and alignment are defined; the generator has a size but no alignment for `raw`.
- StructLayout.SizesAreAbi: what a pointer points to is left out of the emitted types, and a declared name is taken to be declared once and not to be a built-in one.
- RuneText.EncodesWellFormed: stated for Unicode scalar values; RuneText.OutsideScalars says what becomes of other numbers.
- Monomorphisation and erasure of generics, closures, interfaces, errors and `try`.
- Printing of floats, file and operating-system functions, linking, caches, the command line, diagnostics and the text of the emitted LLVM.
