# The virtual machine, verified

A Dafny model of a bytecode virtual machine written in C: its generational collector and
the code that has to cooperate with it, its stack machine of calls, blocks and exceptions,
its hash tables and slot tables, its bytecode optimiser, its JSON codec, and the smaller
parts under these: the block allocator and element pool, the string pool, cache files, and
the protocol by which threads take turns at running coroutines.

`dafny verify dfyconfig.toml` checks everything.

What the source does step by step on data it updates in place is written here as methods
on classes and arrays, each proved against a specification on plain values; what is
promised about the specification, over whole runs where that makes sense, is proved as
lemmas beside it.

| files | what they are about |
|---|---|
| `GcGraph`, `ContextRefs`, `GcScopes`, `GcFinish`, `GcTheorem`, `Collector` | one collection, from the roots to giving memory back |
| `GcUpdate`, `Mutator` | everything that changes the object graph between collections |
| `StackSpec`, `StackLaws`, `Coroutine` | calls, blocks and exceptions: as values, what instructions see of them, and on one growing stack |
| `PtHash`, `SlotTable`, `SlotCache`, `ObjectSlots` | hash tables, slot tables, inline caches, copy on write |
| `OptSem`, `OptPasses`, `OptInvariant`, `OptSim`, `OptEmit`, `OptShape`, `Optimiser`, `OptLimits` | the optimiser |
| `JsonText`, `JsonGrammar`, `JsonPrinted`, `JsonCodec` | printing and parsing JSON (RFC 8259, sections 2 to 7) |
| `StringPool`, `Heaps`, `Threads`, `CacheFormat`, `CacheLayout`, `CacheCodec` | string pool, allocator and pool, threads, cache files |
| `Basics` | what several of these use |

## How to read it

**Collection.** Memory is a map from addresses to nodes, an object or a slot table each;
contexts are kept apart, with their reference counts. A collection starts from a state
whose remembered sets cover every edge from an old to a young node. What it leaves behind
is related to the start by a map `phi` of addresses: `Isomorphic` says that contents are
the same and pointers follow `phi`; `PathsKept`, `SharingKept` and `NothingDangles` say
what that means for a program following pointers. `Collector.State.Valid` is what
collections and mutators both keep, so the result holds over any run of them. It contains
the log of objects with a destructor: nobody in it has been destructed, and nobody is in
it twice. It says that no two slot tables have the same id and none an id yet to be given
out, which is what inline caches rest on (`SlotCache`). And it says that the count of every
scope is the number of its holders: function objects, scopes inside it, frames, and the
remembered set. Giving up a reference is `GaveUp`: what every count goes down by, and which
scopes go. A scope is made with a count of nothing and entered at once
(`Mutator.Enter`), so between any two operations every scope is held (`AllHeld`), which is
what a collection starts from and what it leaves.

**Stack machine.** `StackSpec` describes a coroutine as a sequence of activations, each a
sequence of blocks of values; `Coroutine` is the source's one array with pointers into it,
a block stack and a frame stack. `Stored` relates the two and every operation keeps it.

**Optimiser.** `Program(p)` runs a program under any meaning of the opcodes the optimiser
does not look into. `Shape` says of the program alone what is put out: `Stays` which
instructions, `GetsTo` where each jump goes; there is one program it is true of. `Tidy` is
the condition under which the optimiser is right. A jump goes on where it lands on an
unconditional jump, or on one that keeps its condition on top of the stack and is of the
same kind; there it has to land further on. An unconditional jump that a conditional one
leads over does not land on another unconditional one. And where a jump that keeps its
condition may come to one on the opposite condition, what stands behind that one is not
taken away: it is no `nop` or push and pop nobody refers to, and no unconditional jump.
Programs in which no jump lands on an unconditional one, and none that goes on on one that
keeps its condition, are tidy (`OptLimits.PlainTidy`).

**JSON.** `JsonGrammar.Syntax` is a text by its grammar, with the space between its tokens
and every string in its parts; `Text` is what it looks like and `Meaning` what it means,
neither of which mentions the parser. `DecodesText` is about all of them. `Well` leaves out
numbers the VM does not convert, code points it does not encode, strings that mean
something with a NUL in it, which the parser cuts there, and a hexadecimal digit right
behind the four of a code point, which is the condition `StringExactly` is about. A pair of
surrogates is two code points, each encoded by itself.

## What the proofs turned up

- Giving a context an object has a write barrier for the object and none for its table. The
  exact condition under which an edge is missed is in `Mutator.SetObject`, a state in which
  it is in `Mutator.MissedHappens`, and what comes of it, a context that names a table given
  back, in `Mutator.MissedDangles`.
- `insert` into the pointer hash counts a key that is already bound once more.
- An exception out of a call, whatever the call did until then, leaves the callee, and its
  base, on the caller's stack when the arguments were handed over on the stack; a return
  drops them.
- The optimiser can lose a jump, fail its own assertion, or not end, each on a small
  program (`OptLimits`). Its pass over comparisons never does anything: the jump behind a
  comparison always has a target.
- JSON text is not read back when it is nested 512 deep or holds a NUL in a string.
- A code point in a JSON string takes up to eight digits where the standard has four, so one
  followed by a character that is a digit too is misread (`JsonGrammar.StringExactly`,
  `JsonGrammar.DigitBehind`).
- A region longer than a block is not recognised by `isIn` beyond the size of a block.
- A spawned thread that waits for all threads waits for itself, and threads do come to that.
- Strings registered with a length are hashed beyond a NUL, but not when the string pool
  grows: only strings without one are sure to be found again (`StringPools.GivenLength`).
- The comment on the format of a string in a cache file (util/serial.c:291-308) has the
  flag first, in one bit, and a length of 32 bits. The code writes the string as it is in
  memory: a length of 64 bits, a byte for the flag, the content, and a NUL. The model
  follows the code.

## Model

| member | source | states |
|---|---|---|
| `Collector.State.Collect` | vm/gc.c:546-631 | A collection, full or partial, keeps the state valid (hence can be followed by another), empties every remembered set and the nursery, leaves everything in the old generation, moves the roots along `phi`, and the part of the graph `phi` covers, which includes everything the roots lead to, is isomorphic to what it was. A full one keeps nothing the roots did not lead to; a partial one leaves every old node at its address. Each logged object is either kept in the log, once, under its new address, or destructed by this collection. A table that moves gets an id above all given out before, one that stays keeps its own, and no two tables share one. Every reference count is the number of holders, and a scope is freed exactly when its count comes down to nothing: if every scope was held before, every scope that is left is held |
| `Collector.State.CanCollect` | vm/gc.c:546-590 | What the mutators keep true is what a collection needs to start from |
| `Collector.State.AddCopy` | vm/gc.c:166-200 | A copy has the contents of the original under an unused address of the surviving heap, a table an id of its own, and the original forwards to it |
| `Collector.State.CopySlotTable` | vm/gc.c:166-210 | Afterwards the table, and all that was reached through it, is finished: forwarded once, to a copy with an id no table had, and every value replaced by its image |
| `Collector.State.CopySlotTableNG` | vm/gc.c:213-235 | An old table from the remembered set stays where it is, and its values become their images |
| `Collector.State.CopyObject` | vm/gc.h:204-256 | Null, nodes that do not move and nodes already copied give the known image; anything else is copied |
| `Collector.State.CopyObjectC` | vm/gc.c:237-271 | The object gets exactly one copy and the copy has the images of its table, prototype, items and the object type's other children; the recursion ends because unforwarded nodes and unvisited contexts only get fewer |
| `Collector.State.CopyObjectNG` | vm/gc.c:274-297 | An old object from the remembered set stays where it is, and its pointers become their images |
| `Collector.State.ForwardFields` | vm/gc.c:251-268 | Every pointer of one object becomes its image while traversals that this starts leave that object alone |
| `Collector.State.ForwardEntries` | vm/gc.c:202-208 | The same for every value of a slot table |
| `Collector.State.TravSingleContext` | vm/gc.c:309-336 | A context is visited once: its object and table become their images, its mark is cleared and it becomes old |
| `Collector.State.TravContext` | vm/gc.c:338-356 | So is every context around it, up to one that has been visited |
| `Collector.State.TravFrames` | vm/gc.c:358-369 | All scopes of the frames of a coroutine are visited |
| `Collector.State.TravCoro` | vm/gc.c:381-424 | A coroutine is visited once per collection: its stack cells become their images and its scopes are visited |
| `Collector.State.TravTypes` | vm/gc.c:425-432 | The prototypes of all types become their images |
| `Collector.State.TravCoros` | vm/gc.c:443-447 | So does everything the coroutines hold |
| `Collector.State.TravState` | vm/gc.c:434-480 | And all other roots |
| `Collector.State.CheckObjects` | vm/gc.c:492-498 | Every remembered object is finished |
| `Collector.State.CheckSlots` | vm/gc.c:500-506 | Every remembered table is finished |
| `Collector.State.CheckContexts` | vm/gc.c:508-524 | Every remembered context gives up the reference of the list, and is finished unless it was only there because of the list |
| `Collector.State.CheckCoros` | vm/gc.c:526-532 | The coroutine list adds nothing: every coroutine has been visited |
| `Collector.State.CheckWriteBarrier` | vm/gc.c:482-536 | After the remembered sets nothing that survives points into memory that goes, and the sets are empty |
| `Collector.State.TriggerDestructor` | vm/gc.c:116-160 | Exactly the logged objects that were not reached and are in a collected generation are destructed, in log order; a function object gives up its scope; the others stay in the log under their new address |
| `Collector.State.ContextFree` | vm/inline/context.h:44-58 | Every count goes down by exactly the references given up: one for the context, and one for each freed scope directly inside; a scope is freed exactly when that brings its count down to nothing; counts are the numbers of holders before and after |
| `Collector.State.WriteBarrierObj` | vm/vm.h:454-470 | An old parent of a young child is put on the list and marked, once |
| `Collector.State.Evacuate` | vm/gc.c:546-618 | Everything of a collection but giving back memory |
| `Collector.State.GiveBack` | vm/gc.c:620-631 | Giving back the collected heaps drops exactly what is not a survivor, and swaps the two old heaps after a full collection |
| `Collector.State.Prepare` | vm/gc.h:190-198 | A collection id no coroutine has |
| `GcGraph.StepTrans` | vm/gc.c:237-271 | What two traversals in a row do is again what a traversal does: copies are added, finished nodes stay finished, addresses are never reassigned |
| `GcGraph.CallThenRewrite` | vm/gc.c:251-268 | A node under work is left alone by the traversals of its children |
| `GcGraph.FinishCopy` | vm/gc.c:237-271 | A copy all of whose pointers are images counts as finished, whatever was reached meanwhile |
| `GcTheorem.ReachClosed` | vm/gc.c:434-480 | What the roots lead to is live and closed under every edge |
| `GcTheorem.PathsKept` | vm/gc.c:546-631 | Following any path after a collection leads to the new address of where it led before |
| `GcTheorem.SharingKept` | vm/gc.c:546-631 | Two paths meet after a collection if and only if they met before: sharing and cycles are kept |
| `GcTheorem.NothingDangles` | vm/gc.c:546-631 | No path leads into memory that was given back |
| `GcFinish.FinalIsomorphic` | vm/gc.c:546-631 | When roots and remembered sets have been dealt with, what is left is isomorphic to the old graph |
| `GcFinish.WellFormedAfter` | vm/gc.c:592-631 | Afterwards every pointer has the right kind and leads to something that is left, all of it old, and nothing needs remembering |
| `GcScopes.CountedAfter` | vm/gc.c:508-524 | Reference counts are still the numbers of holders |
| `GcScopes.HeldSettled` | vm/gc.c:338-356 | A scope that anything holds has been seen by the traversal, through its holder, that one's holder, and so on |
| `GcScopes.NoneForgotten` | vm/gc.c:508-524 | So every scope that is held is left |
| `GcFinish.UidsAfter` | vm/slot.h:105-112 | Ids of tables stay distinct and below the next one over a collection, and moved tables have new ones |
| `GcFinish.HeldAfter` | vm/gc.c:138-160 | The destructors take no scope away from a survivor |
| `GcFinish.LogSplit` | vm/gc.c:116-160 | The dead are exactly those whose destructor ran, everybody else is still logged |
| `GcFinish.ReachableSpared` | vm/gc.c:116-160 | An object some path from the roots leads to stays in the log over a collection, under its new address, and no destructor run so far is its own |
| `GcFinish.LogAfterOk` | vm/gc.c:138-160 | Nobody is destructed twice, and nobody in the log has been destructed, over any number of collections |
| `GcFinish.WhatIsLeft` | vm/gc.c:620-631 | Giving back the heaps leaves exactly the survivors |
| `GcFinish.BeginCollection` | vm/gc.c:482-536 | A state whose remembered sets cover every old-to-young edge is one a collection can start from |
| `GcFinish.EndCollection` | vm/gc.c:592-631 | And ends in such a state again |
| `ContextRefs.Release` | vm/inline/context.h:44-58 | A context nobody else refers to goes without anybody missing it |
| `ContextRefs.GaveOne` | vm/inline/context.h:44-58 | Where a count stays above nothing, giving up the reference is all that happens |
| `ContextRefs.GaveLast` | vm/inline/context.h:44-58 | Where it comes down to nothing, the scope goes, and the reference it had to the scope around it is the next to be given up |
| `ContextRefs.Unlist` | vm/gc.c:508-524 | Taking a context off the remembered set gives up exactly the reference the list held |
| `ContextRefs.DropClosure` | vm/inline/func.h:219-237 | A function object that goes gives up exactly its scope |
| `GcUpdate.WriteOk` | vm/vm.h:454-564 | A write that puts the parent on its list when it is old and the child young keeps the remembered sets complete and exact, the graph closed, the counts and the log right |
| `GcUpdate.BarrierOk` | vm/vm.h:454-564 | With the barrier one child of any node may be replaced by any live object |
| `GcUpdate.AllocOk` | vm/vm.h:658-673 | An allocation keeps all of that |
| `GcUpdate.WriteContextOk` | vm/vm.h:548-564 | So does a write to a context |
| `GcUpdate.ContextBarrierOk` | vm/vm.h:548-564 | With the barrier for its object and its table, any change of a context is such a write |
| `GcUpdate.ScopeOk` | vm/inline/context.h:28-42 | So does a new scope |
| `GcUpdate.StackOk` | vm/inline/call.h:62-80 | So do values and frames that come and go |
| `GcUpdate.FewerScopesOk` | vm/inline/context.h:44-58 | So does freeing scopes nobody holds |
| `Mutator.Alloc` | vm/vm.h:658-673 | A new node at an unused address; an object of a type with a destructor is logged, and a scope gains a reference |
| `Mutator.NewObject` | vm/inline/obj.h:53-76 | A young object with the given prototype, items and scope; the state stays valid |
| `Mutator.NewTableAt` | vm/slot.c:55-96 | An empty table of the given generation with a fresh id; the state stays valid |
| `Mutator.GenUid` | vm/vm.h:1060-1060 | An id no table has |
| `Mutator.WriteBarrierSlot` | vm/vm.h:490-510 | An old table that gets a young value is put on its list and marked, once |
| `Mutator.StoreObject` | vm/vm.h:454-488 | An object whose child is replaced is remembered if need be; the state stays valid |
| `Mutator.StoreTable` | vm/inline/slot.h:15-104 | So is a table, also when it grows; the state stays valid |
| `Mutator.SetProto` | vm/inline/obj.h:129-143 | Setting a prototype keeps the state valid |
| `Mutator.ListSet` | vm/inline/listobj.h:205-223 | Storing a list element: it is there afterwards, all others are where they were, and a list that had to grow has null in between; the state stays valid |
| `Mutator.ListPush` | vm/inline/listobj.h:131-147 | Appending one; the state stays valid |
| `Mutator.CopyState` | vm/slot.c:133-172 | A private copy of a table: young, same cells, own id, not shared |
| `Mutator.CopyOnWrite` | vm/inline/obj.h:258-269 | An object with a shared table gets a private copy, is remembered if old, and the shared table is untouched; the state stays valid |
| `Mutator.OwnSlots` | vm/obj.c:31-45 | The table a slot may be written to: the object's own, a private copy, or a new one of the object's generation |
| `Mutator.SetSlot` | vm/obj.c:31-45 | Setting a slot changes no node but the object and its own table, leaves a shared table alone and keeps the state valid |
| `Mutator.SetShared` | vm/slot.h:159-175 | Marking a table as shared keeps the state valid |
| `Mutator.Clone` | vm/inline/obj.h:31-51 | A clone is a young object with the same contents; it shares the table, which is marked, or gets a copy when the table must not be shared; the state stays valid |
| `Mutator.NewContext` | vm/inline/context.h:28-42 | A new scope holds a reference to the one around it; the state stays valid |
| `Mutator.WriteBarrierContext` | vm/vm.h:548-564 | An old context that gets a young object is put on its list and marked, once, and the list holds a reference |
| `Mutator.StoreContext` | vm/inline/context.h:146-160 | Setting object and table of a context with the barrier for the object keeps the state valid if the table is no younger than the object |
| `Mutator.InitSlots` | vm/inline/context.h:15-26 | A context gets its table in its own generation: no barrier is needed |
| `Mutator.ContextSetSlot` | vm/inline/context.h:60-70 | Setting a variable writes the context's own table and keeps the state valid |
| `Mutator.GetObject` | vm/inline/context.h:146-162 | The object of a context is made on first use around the context's table, which is never to be shared; the state stays valid |
| `Mutator.SetObject` | vm/inline/context.h:177-202 | The state stays valid if and only if not: the context is old and unmarked, the object is old, and its table is shared or young. Only the barrier for the object is there, none for the table. In that case the context is left old, unmarked and with a young table |
| `Mutator.MissedHappens` | vm/inline/context.h:177-202 | There is a state, valid in all that the write concerns, in which that barrier is missed for the context of a running frame |
| `Mutator.MissedDangles` | vm/gc.c:338-356 | Whatever the next partial collection does from there, the context is passed over and goes on naming its old table, which is not among what is left |
| `Mutator.PushFrame` | vm/inline/runtime.h:31-45 | A call takes a reference to its scope; the state stays valid |
| `Mutator.Enter` | vm/inline/func.h:106-130 | A scope is made to be entered at once: its only reference is that of its frame, and so no scope is ever left without a holder |
| `Mutator.PopFrame` | vm/inline/runtime.h:47-54 | A return gives it up: counts go down by exactly the references given up, and scopes nobody holds any more go, and no others; the state stays valid |
| `Mutator.PushValue` | vm/opcode.dispatch.h:184-190 | Pushing a live value keeps the state valid |
| `Mutator.PopValue` | vm/opcode.dispatch.h:195-195 | So does popping one |
| `StackSpec.RaiseResumes` | vm/coro.c:381-422 | An exception that is caught resumes at the innermost armed block of any frame down to native code: that block is disarmed, every block and frame inside it is gone, its values are the ones it had and the exception is on top; everything below is as it was |
| `StackSpec.RaiseKills` | vm/coro.c:381-422 | An exception ends the coroutine if and only if no activation has an armed block and none was entered from native code |
| `StackSpec.RaiseLeaves` | vm/coro.c:381-422 | One that reaches native code leaves that activation and all below alone, and no armed block was passed |
| `StackSpec.ExecKeepsBelow` | vm/opcode.def.h:957-1058 | No opcode touches anything below a block that stays open |
| `StackSpec.RunKeepsBelow` | vm/opcode.def.h:957-1058 | Nor does any run of opcodes, calls, returns and exceptions included |
| `StackSpec.BlockRestores` | vm/opcode.def.h:984-1028 | Entering a block, doing anything inside, and leaving it gives back the frame and all blocks as they were, the values the block took along aside |
| `StackSpec.CallReplaces` | vm/opcode.def.invoke.h:34-143 | However a call runs, its return replaces callee and arguments by one result and leaves everything below alone, whether arguments are matched or handed over on the stack |
| `StackSpec.RaiseThenPop` | vm/coro.c:381-422 | After an exception, leaving the handler's block gives back the blocks around it exactly as on the path without the exception |
| `StackSpec.RaiseToCaller` | vm/coro.c:381-450 | Over every run of a call, with calls, blocks and caught exceptions of its own, an exception out of it is caught by the innermost block of its caller if and only if that block is armed, no armed block is above it, and no native frame is in between |
| `StackSpec.RaiseOutOfCall` | vm/coro.c:381-450 | And then, whatever the call did until then, the caller goes on at the handler with the frames and blocks below as they were, and on its stack what was there before callee and arguments, the exception on top; but where arguments are handed over on the stack, the callee, and the base if there is one, which a return would have dropped, stay under the exception |
| `StackLaws.ReturnGives` | vm/opcode.def.h:1030-1038 | Over every run of a call, `return` leaves the caller with its values without callee and arguments, and on top the last value of the callee's current block, or `none` if that block is empty |
| `StackLaws.ReturnLeaves` | vm/coro.c:424-450 | Out of a call from native code, that gets the same value, and the activation it was made from is as it was |
| `StackLaws.CalleeFinds` | vm/opcode.def.invoke.h:34-143 | The callee starts at its entry, in its own scope, with one block holding the arguments in order or nothing; the caller waits behind the call |
| `StackLaws.EnteredFinds` | vm/coro.c:497-520 | Called from native code it starts without values, on top of everything there was |
| `StackLaws.PushPop` | vm/opcode.dispatch.h:184-195 | What is pushed is what is popped, and nothing else changes |
| `StackLaws.BlockTakes` | vm/coro.h:211-219 | A new block has the values from the `n`th on, the one around it those before; it is not armed |
| `StackLaws.BlocksGo` | vm/opcode.def.h:1044-1056 | As many blocks go as are asked for, but never the outermost one; the others keep values and handlers |
| `StackLaws.ValueStays` | vm/opcode.def.h:1016-1028 | Leaving a block with its value puts that value on top of the block around it |
| `StackLaws.ArmedCatches` | vm/coro.h:238-251 | An armed block is where the next exception resumes, with its values and the exception on top |
| `StackLaws.DisarmedPasses` | vm/coro.h:238-251 | A disarmed one is passed over: raising in it does what raising around it does |
| `Coroutine.Coroutine.constructor` | vm/coro.c:230-345 | A coroutine about to run one activation without values |
| `Coroutine.Coroutine.FramesNest` | vm/inline/call.h:63-99 | In every frame bp is rbp plus the sizes of its blocks, frames nest, and bp <= sp < end of the stack |
| `Coroutine.Coroutine.Relocate` | vm/vmstack.c:88-124 | Moving the stack to a larger array moves bp, rbp and sp of every frame along: nothing else changes |
| `Coroutine.Coroutine.RelocateFrames` | vm/vmstack.c:104-116 | Every frame's addresses follow the stack |
| `Coroutine.Coroutine.Ensure` | vm/vmstack.c:126-168 | There is room for `n` more values, growing the stack if need be |
| `Coroutine.Coroutine.Push` | vm/opcode.dispatch.h:184-190 | Pushing a value, the stack growing when full |
| `Coroutine.Coroutine.Pop` | vm/opcode.dispatch.h:195-195 | Popping a value of the current block |
| `Coroutine.Coroutine.PushBlockC` | vm/coro.h:211-219 | A new block that takes all but the first `n` values along |
| `Coroutine.Coroutine.PushBlock` | vm/opcode.def.h:984-989 | A new block without values |
| `Coroutine.Coroutine.PushBlockS1` | vm/opcode.def.h:991-998 | A new block with the value on top |
| `Coroutine.Coroutine.PopBlockOp` | vm/opcode.def.h:1007-1014 | Leaving a block gives back the one around it; an activation without a block of its own does nothing |
| `Coroutine.Coroutine.PopBlockS1Op` | vm/opcode.def.h:1016-1028 | The same, keeping the value on top |
| `Coroutine.Coroutine.IntLoop` | vm/opcode.def.h:1044-1056 | Leaving several blocks at once |
| `Coroutine.Coroutine.SetCurCatch` | vm/coro.h:238-251 | Arming or disarming the current block; in an activation without a block of its own that is a fatal error, and nothing changes |
| `Coroutine.Coroutine.PopToCatch` | vm/coro.h:264-278 | Blocks of the activation are left until one is armed, which is disarmed; or all are left |
| `Coroutine.Coroutine.PopFrame` | vm/inline/coro.h:50-56 | Leaving an activation gives back the one below, if there is one |
| `Coroutine.Coroutine.RaiseOp` | vm/coro.c:381-422 | Raising an exception does what the specification says: it resumes, reaches native code or ends the coroutine |
| `Coroutine.Coroutine.Unwind` | vm/coro.c:389-418 | Giving up activations until one has an armed block |
| `Coroutine.Coroutine.ReturnOp` | vm/coro.c:424-450 | Returning does too, and hands back the last value of the current block, or `none` if that is empty |
| `Coroutine.Coroutine.PushFrame` | vm/inline/call.h:63-80 | A new frame on top; the frames below do not change |
| `Coroutine.Coroutine.InvokeMatch` | vm/opcode.def.invoke.h:34-58 | A call with a parameter list: callee and arguments leave the stack, in order; too few values are an error that changes nothing |
| `Coroutine.Coroutine.InvokeDirect` | vm/opcode.def.invoke.h:59-74 | A call without one: the arguments become the first values of the callee, and the callee object will be dropped |
| `Coroutine.Coroutine.InvokeBaseMatch` | vm/opcode.def.invoke.h:91-123 | A call with a base and a parameter list |
| `Coroutine.Coroutine.InvokeBaseDirect` | vm/opcode.def.invoke.h:124-143 | A call with a base and no parameter list: two values will be dropped |
| `Coroutine.Coroutine.EnterOp` | vm/coro.c:497-520 | Native code calls a function: an activation without values on top |
| `Coroutine.Coroutine.PutOperator` | vm/opcode.def.invoke.h:77-89 | Calling an object that is no function: its operator takes its place and it becomes the base |
| `Coroutine.Coroutine.TopN` | vm/block.h:125-140 | The sizes of the blocks around the current one, added up |
| `Coroutine.Coroutine.PrevBlockTop` | vm/coro.h:311-318 | The last value of the `n`th block around the current one |
| `PtHash.Home` | std/hash.h:102-112 | Every key has a home slot inside the table |
| `PtHash.Hash.constructor` | std/hash.c:7-17 | An empty table |
| `PtHash.Hash.FindC` | std/hash.h:100-127 | Probing ends at the slot of the key if it is bound, at an unused slot if it is not, and nowhere only if the table is full |
| `PtHash.Hash.Find` | std/hash.h:129-139 | The value the key is bound to, null if it is not |
| `PtHash.Hash.Insert` | std/hash.h:141-168 | Binds the key, growing a full table; the count goes up in any case |
| `PtHash.InsertCounts` | std/hash.h:141-168 | The count is right afterwards if and only if the key was not bound |
| `PtHash.Hash.InsertEmpty` | std/hash.h:170-198 | Binds the key only if it is not bound, and keeps the count right |
| `PtHash.Hash.Expand` | std/hash.h:276-298 | Twice the size, the same bindings, and room |
| `PtHash.Hash.Rehash` | std/hash.h:200-218 | A binding that is not there yet, when there is room, without growing |
| `PtHash.Hash.Remove` | std/hash.h:220-273 | Unbinds exactly that key, all others stay findable, also in a full table, and keeps the count right |
| `PtHash.Hash.CloseGap` | std/hash.h:233-268 | Shifting back restores "no unused slot between an entry and its home", cyclically, and ends because the entries' total distance from home goes down |
| `PtHash.Hash.FindFiller` | std/hash.h:239-262 | The next entry whose probing passes the gap, or none up to the next unused slot or once round |
| `PtHash.ShiftBack` | std/hash.h:244-256 | An entry whose probing passes the gap may be moved into it, is nearer home there, and leaves the only gap behind |
| `PtHash.StopAtHole` | std/hash.h:239-262 | At an unused slot the gap hurts nobody |
| `PtHash.StopAfterRound` | std/hash.h:239-262 | Nor after a full round |
| `PtHash.FullTable` | std/hash.h:141-198 | A full table has as many bindings as slots |
| `SlotTables.SlotTable.constructor` | vm/slot.c:18-96 | An empty table with room, a hash table from six slots on, under a fresh id |
| `SlotTables.SlotTable.Probe` | vm/inline/slot.h:15-95 | Probing a list or a hash table ends at the slot of the key, deleted or not, or at an unused slot, or nowhere if the table is full |
| `SlotTables.SlotTable.Resize` | vm/slot.c:216-259 | A larger array with the same slots under a fresh id, a hash table when it gets large |
| `SlotTables.SlotTable.Expand` | vm/slot.c:176-214 | Twice the size; a list may become a hash table |
| `SlotTables.SlotTable.ExpandTo` | vm/slot.c:216-259 | Room for as many slots as asked; nothing happens if there is |
| `SlotTables.SlotTable.SetHashed` | vm/inline/slot.h:26-62 | Writing or deleting a slot of a hash table, growing while full; it ends after at most one growth |
| `SlotTables.SlotTable.SetSlot` | vm/inline/slot.h:15-104 | Exactly that slot changes, whether the table is a list, a hash table or becomes one; null deletes; as long as the id stays, no slot moves |
| `SlotTables.SlotTable.SetEmptySlot` | vm/inline/slot.h:247-316 | Writes only if there never was a slot with that key, and says so |
| `SlotTables.SlotTable.GetSlot` | vm/inline/slot.h:131-185 | Finds the slot if and only if it is there and not deleted |
| `SlotTables.SlotTable.SetExistSlot` | vm/inline/slot.h:363-382 | Writes if and only if the slot is there and not deleted |
| `SlotTables.SlotTable.CopyState` | vm/slot.c:133-172 | A copy with the same slots, deleted ones included, under an id of its own |
| `SlotTables.SlotTable.Merge` | vm/slot.c:320-357 | Overwriting, every slot of the other table, deleted ones included, wins; otherwise only slots that never were there are added |
| `SlotTables.SlotTable.GetSlotCC` | vm/inline/slot.h:222-245 | With a cache that is right, reading through it is reading, and the cache is right afterwards |
| `SlotTables.SlotTable.SetSlotCC` | vm/inline/slot.h:112-129 | The same for writing |
| `SlotTables.SlotTable.SetExistSlotCC` | vm/inline/slot.h:382-400 | The same for writing a slot that is there |
| `SlotTables.ListGrown` | vm/slot.c:216-259 | A list may be extended by unused slots in place |
| `SlotCache.World.Get` | vm/inline/slot.h:222-245 | In every state any tables and instructions can get into, a cached read returns what the table has under the key |
| `SlotCache.World.Set` | vm/inline/slot.h:112-129 | A cached write changes exactly that slot of exactly that table |
| `SlotCache.World.SetExist` | vm/inline/slot.h:382-400 | A cached write to a slot that must be there does so if and only if it is |
| `SlotCache.World.SetPlain` | vm/inline/slot.h:98-104 | An uncached write leaves every cache right |
| `SlotCache.World.Grow` | vm/slot.c:216-259 | So does growing a table |
| `SlotCache.World.Merge` | vm/slot.c:320-357 | So does merging one into another |
| `SlotCache.World.Copy` | vm/slot.c:133-172 | So does copying one |
| `SlotCache.World.NewInstr` | vm/slot.h:201-214 | A new instruction has a cache that fits no table |
| `SlotCache.World.NewTable` | vm/slot.c:55-96 | And a new table, whose id no cache has |
| `ObjectSlots.Heap.Clone` | vm/inline/obj.h:31-51 | A clone looks like its original, and nobody else notices |
| `ObjectSlots.Heap.CopyOnWrite` | vm/slot.h:146-157 | Afterwards the object's table is not shared, and looks the same |
| `ObjectSlots.Heap.SetSlot` | vm/obj.c:31-45 | The object, and contexts it belongs to, see the new value under that key; no other object or context notices anything, and no shared table is written |
| `ObjectSlots.Heap.ContextSet` | vm/inline/context.h:60-70 | The same for a variable |
| `ObjectSlots.Heap.GetObject` | vm/inline/context.h:146-162 | The object of a context looks like the context; nobody notices |
| `ObjectSlots.Heap.SetObject` | vm/inline/context.h:177-202 | A context given an object looks like it; nobody else notices |
| `ObjectSlots.Heap.InitSlots` | vm/inline/context.h:15-26 | A context gets a table of its own |
| `ObjectSlots.Heap.NewObject` | vm/inline/obj.h:53-76 | A new object has no slots |
| `JsonText.ClosingEscaped` | mod/json/main.c:299-330 | The quote found to close an escaped text is the one behind it |
| `JsonText.UnescapeEscaped` | util/parser.c:17-134 | Reading escapes undoes writing them |
| `JsonText.ParseEnc` | mod/json/main.c:593-638 | A printed value is read back to its end and not further, whatever follows that cannot continue a number; nested too deep it is not read at all |
| `JsonText.ParsedNulFree` | util/parser.c:17-134 | No string the parser makes contains a NUL |
| `JsonText.RoundTrip` | mod/json/main.c:640-663 | Decoding the encoding of a value gives the value back if and only if it is nested less than 512 deep and has no NUL in a string |
| `JsonText.TooDeep` | mod/json/main.c:279-297 | Nested 512 deep or more, nothing is decoded |
| `JsonCodec.StringBuffer.Expand` | mod/json/main.c:67-80 | A larger buffer with the same text |
| `JsonCodec.StringBuffer.AddN` | mod/json/main.c:82-97 | Appends a string |
| `JsonCodec.WriteEscape` | mod/json/main.c:118-185 | Appends the escaped text |
| `JsonCodec.Encode` | mod/json/main.c:187-265 | Appends the text of the value |
| `JsonCodec.ParseStr` | util/parser.c:17-134 | Replaces the escapes, or fails, as the specification says |
| `JsonCodec.RuleString` | mod/json/main.c:300-369 | Reads a string, or fails, or does not match |
| `JsonCodec.RuleNumber` | mod/json/main.c:371-417 | Reads a number, or does not match |
| `JsonCodec.RuleArray` | mod/json/main.c:423-494 | Reads a list, or fails, or does not match |
| `JsonCodec.RuleObject` | mod/json/main.c:496-591 | Reads an object, a later member replacing an earlier one with the same key, or fails, or does not match |
| `JsonCodec.RuleValue` | mod/json/main.c:593-638 | Reads a value by trying the rules in order |
| `JsonCodec.Parse` | mod/json/main.c:640-663 | Reads all of a text or fails, as the specification says |
| `JsonCodec.EncodeThenDecode` | mod/json/main.c:665-697 | Printing and parsing gives the value back if and only if it is nested less than 512 deep and has no NUL in a string |
| `JsonGrammar.DecodesText` | mod/json/main.c:640-663 | Every text of the grammar, whoever wrote it, with space around any token, any of the escapes, and any number the VM can convert, is decoded to what it means if it is nested less than 512 deep, and is not decoded otherwise; `true` and `false` mean 1 and 0 |
| `JsonGrammar.LastWins` | mod/json/main.c:496-591 | What an object means: each key once, none missing, each with the value of its last member |
| `JsonGrammar.ReadsString` | mod/json/main.c:300-369 | A string is read to its closing quote and as what its parts stand for |
| `JsonGrammar.ReadsNumber` | mod/json/main.c:371-417 | A number is read to its end |
| `JsonGrammar.ReadsElements` | mod/json/main.c:423-494 | The elements of a list are read one after the other, each as what it means |
| `JsonGrammar.ReadsMembers` | mod/json/main.c:496-591 | So are the members of an object |
| `JsonGrammar.ReadsValue` | mod/json/main.c:593-638 | So is any value, to its end and not further, whatever follows that cannot continue a number |
| `JsonGrammar.StringExactly` | util/parser.c:93-113 | With any encoding of code points in which none is the start of another and NUL is NUL, a string is decoded to what it means if and only if no four digits of a code point have a fifth behind them |
| `JsonGrammar.DigitBehind` | util/parser.c:93-113 | So the text `"\u0041B"` is not decoded to the string of A and B |
| `JsonPrinted.EncIsText` | mod/json/main.c:187-265 | What is printed is the text of the value in the grammar, without space, and with quotes, backslashes, slashes and five control characters written as escapes, and no other character |
| `JsonPrinted.PiecesMeanIt` | mod/json/main.c:118-185 | And those parts of a string stand for the string itself |
| `OptEmit.LiftLifts` | util/opt.c:76-130 | Lifting a program whose jumps stay inside gives jumps with targets, each noted at its target, and a `return` at the end |
| `OptInvariant.ChainSame` | util/opt.c:233-246 | While the pass is at a jump, the chain from there on is what it was at the start |
| `OptInvariant.ThreadedJump` | util/opt.c:233-256 | A threaded jump lands where the chain it starts leads when taken |
| `OptInvariant.IterateInv` | util/opt.c:224-293 | One instruction of the jump pass keeps: each instruction so far is as it was with a target its jump leads to, inverted together with the jump behind it, skipped, or never reached; and references are missing only where jumps go on |
| `OptSim.SafeGood` | util/opt.c:149-185 | What a jump relies on being there is still there, and is put out |
| `OptSim.StepSim` | util/opt.c:224-412 | Every step of the rewritten program that is not just catching up is matched by steps of the original one |
| `OptSim.NewEnds` | util/opt.c:224-412 | If the rewritten program ends, the original one ends the same way |
| `OptSim.OldEnds` | util/opt.c:224-412 | And the other way round |
| `OptSim.PairMatches` | util/opt.c:393-412 | Pushing a value and popping it again is doing nothing twice |
| `OptSim.FlippedMatches` | util/opt.c:258-276 | An inverted jump does what the jump and the one behind it did |
| `OptEmit.PutTarget` | util/opt.c:171-182 | Every relocated jump leads to where its target was put |
| `OptEmit.CodeEnds` | util/opt.c:149-185 | Dropping what nothing refers to and relocating jumps keeps runs |
| `OptEmit.CodeFrom` | util/opt.c:149-185 | And adds none |
| `OptEmit.DoneClosed` | util/opt.c:171-182 | Every target of a jump that is put out is put out: the assertion holds |
| `OptEmit.SameRuns` | util/opt.c:414-429 | The optimised program runs to the same end as the original one, or both run for ever |
| `OptShape.LiftListed` | util/opt.c:113-127 | The list at an instruction has exactly the jumps to it, each once |
| `OptShape.ThreadedExact` | util/opt.c:236-253 | Threading leads a jump to the end of its chain, or right behind a jump on the opposite condition, and strikes out the reference it had |
| `OptShape.InvertsIff` | util/opt.c:261-273 | A conditional jump is inverted exactly if its chain ends right behind the plain jump behind it |
| `OptShape.IterateExact` | util/opt.c:224-293 | One instruction of the jump pass keeps: every instruction so far has become exactly what the program says, and nothing so far refers to a plain jump any more |
| `OptShape.EmittedIff` | util/opt.c:158-169 | An instruction is put out exactly if it stays: a `nop` if something lands on it, a plain jump if it stands neither behind an inverted or another plain one nor before the end of its chain, any other unless it is part of a push and pop nothing lands on |
| `OptShape.DoneShape` | util/opt.c:149-185 | What is put out is what stays, in order, with its line, its opcode unless it is an inverted jump, its argument unless it is a jump; a jump leads to where its chain ends |
| `OptShape.ShapeUnique` | util/opt.c:414-429 | There is exactly one program of which that is true |
| `OptShape.LandsOnNoJump` | util/opt.c:236-256 | In it no jump leads to a plain jump |
| `Optimiser.Convert` | util/opt.c:76-130 | Lifting in place of the source gives the lifted program |
| `Optimiser.ChainEnd` | util/opt.c:240-243 | The loop that follows a chain ends, at the end the specification gives |
| `Optimiser.ThreadJump` | util/opt.c:233-256 | Threading one jump in place |
| `Optimiser.ReduceAt` | util/opt.c:230-290 | One instruction of the jump pass in place |
| `Optimiser.JumpReduce` | util/opt.c:224-293 | The whole jump pass establishes what the simulation needs |
| `Optimiser.ElimDupPop` | util/opt.c:393-412 | Every push with a pop behind it that nothing else refers to is dropped, and nothing else |
| `Optimiser.GenerateExec` | util/opt.c:149-185 | Putting out and relocating in place; the assertion on targets holds |
| `Optimiser.OptExec` | util/opt.c:414-429 | For every program whose jumps stay inside and that is tidy the optimiser ends, its assertion holds, and for any meaning of the other opcodes the result ends exactly as the original program does, or runs for ever exactly if that does. The result is the one program `Shape` describes: what is needless is gone, everything else is there in order, and every jump goes to the end of its chain |
| `OptLimits.PlainTidy` | util/opt.c:233-256 | A program in which no jump lands on an unconditional jump, and none that goes on on one that keeps its condition, is tidy |
| `OptLimits.JumpBackLost` | util/opt.c:278-290 | A jump back to a jump that stands behind a jump: the optimised program ends with another result |
| `OptLimits.JumpRoundHangs` | util/opt.c:240-243 | Jumps of any kind that go on in a circle that does not contain the first: the chain loop never ends |
| `OptLimits.JumpOnAborts` | util/opt.c:258-276 | A program that only jumps forward on which the optimiser's assertion fails |
| `OptLimits.JumpBehindAborts` | util/opt.c:250-252 | Another one, with a jump to one on the opposite condition and a push and pop behind that |
| `OptLimits.JumpBehindOneAborts` | util/opt.c:250-252 | The same with a nop, or with a jump to the next instruction, behind it |
| `OptLimits.JumpBehindViaAborts` | util/opt.c:250-252 | The same with an unconditional jump in between |
| `StringPools.SameNumber` | std/string.c:215-274 | Over any sequence of registrations two get the same number if and only if they are for equal strings; numbers are dense and each stands for one string |
| `StringPools.AnswerStands` | std/string.c:215-274 | A number, once given out, stands for its string for good |
| `StringPools.StringPool.constructor` | std/string.c:91-107 | An empty pool |
| `StringPools.StringPool.FromList` | std/string.c:143-172 | A pool of a list of strings, equal ones allowed, under their places in the list |
| `StringPools.StringPool.Register` | std/string.c:215-274 | The first number of the string, a new one behind the others if it has none; the table grows when full, and no number changes |
| `StringPools.StringPool.Find` | std/string.c:377-381 | The first number of the string, or that it has none |
| `StringPools.StringPool.Expand` | std/string.c:187-211 | Twice the size, the same numbers, and room |
| `StringPools.StringPool.Get` | std/string.h:193-193 | Looking a number up undoes registering |
| `StringPools.Hit` | std/string.c:253-274 | Where probing meets the string it meets its first number, also after rehashing |
| `StringPools.GivenLength` | std/string.c:362-375 | Hashing a string beyond its NUL, as the variants given a length do, is sure to lead to where rehashing put it if and only if there is no NUL in it |
| `StringPools.Crowd` | std/string.c:187-211 | There are at most as many strings as slots, and as many only in a full table |
| `Heaps.Heap.Alloc` | std/heap.h:70-101 | What is handed out starts at a multiple of four, lies inside its block and overlaps nothing handed out since the last reset; says whether a block was added |
| `Heaps.Heap.AddBlock` | std/heap.c:152-182 | Going on to the next block, a used one again or a new one, keeps all of that |
| `Heaps.Heap.AddLargeBlock` | std/heap.c:116-150 | Also when a large block replaces one that is there: no region handed out lies in that |
| `Heaps.Heap.Reset` | std/heap.c:84-91 | Everything may be handed out again |
| `Heaps.Heap.Compact` | std/heap.c:93-114 | Giving back unused blocks keeps every region |
| `Heaps.Heap.IsIn` | std/heap.h:103-119 | Looks at the first `bsize` bytes of every block only |
| `Heaps.KnownIn` | std/heap.h:103-119 | All of a region is recognised if and only if it is no longer than a block |
| `Heaps.Pool.Alloc` | std/pool.h:53-64 | An element that is not in use |
| `Heaps.Pool.Dump` | std/pool.h:98-99 | An element in use may be given back, once |
| `Heaps.Pool.DumpAll` | std/pool.h:77-86 | All elements may be handed out again |
| `Threads.NextInv` | vm/vm.c:212-444 | Every step keeps: a coroutine is active exactly while one thread is in it, the lock has one holder and only the holder runs, a coroutine is marked as spawned exactly while one thread is there for it, and at most one thread waits for the others |
| `Threads.RunsInv` | vm/vm.c:212-444 | So does every interleaving |
| `Threads.NeverTwice` | vm/coro.h:159-168 | In every reachable state no coroutine is in two places and only one thread runs |
| `Threads.EntersIdle` | vm/coro.h:159-168 | A thread enters only a coroutine that is alive, that no thread is in and that no other thread was spawned for |
| `Threads.StopEnds` | vm/coro.c:424-465 | Stopping leaves the coroutine the thread is in, which goes on being alive or has ended as it says |
| `Threads.EndedForGood` | vm/coro.h:159-168 | A coroutine that has ended stays so over every run; no thread is in it, and none resumes, starts or spawns it again |
| `Threads.ReturnsAlone` | vm/vm.c:407-444 | Only the main thread ever returns from waiting for all threads, and then the thread set is empty and no other thread is left |
| `Threads.ReturnsOnce` | vm/vm.c:407-444 | Once the others have ended, it can return |
| `Threads.SpawnedJoinHangs` | vm/vm.c:407-444 | A spawned thread that waits for all threads waits for ever, and all other threads that want to wait are turned away |
| `Threads.SpawnedJoins` | vm/vm.c:407-444 | From every initial state in which the main thread can spawn another one, letting that run and wait for all threads leads there |
| `Threads.SpawnedJoinHappens` | vm/vm.c:407-444 | So some state that threads reach has a spawned thread waiting |
| `CacheFormat.WordBack` | util/serial.c:311-328 | Reading a word undoes writing it |
| `CacheFormat.StrBack` | util/serial.c:319-321 | Reading a string undoes writing it |
| `CacheFormat.ManyBack` | util/serial.c:311-328 | Reading a list of anything that can be read back undoes writing it |
| `CacheFormat.PoolBack` | util/serial.c:330-390 | Reading a pool undoes writing it |
| `CacheFormat.CodeBack` | util/serial.c:493-590 | Reading code undoes writing it |
| `CacheFormat.FileBack` | util/serial.c:680-756 | Reading a file undoes writing it |
| `CacheLayout.WordSits` | util/serial.c:311-328 | A word is eight bytes, the lowest first |
| `CacheLayout.StrSits` | util/serial.c:311-328 | A string is its length, its flag, its bytes and a NUL |
| `CacheLayout.PoolSits` | util/serial.c:310-328 | A pool is the number of its strings and the strings, one right behind the other |
| `CacheLayout.CodeSits` | util/serial.c:492-519 | Code is the number of its pool, the numbers of instructions and parameters, then the parameters and the instructions, nine bytes each |
| `CacheLayout.LaidOut` | util/serial.c:680-690 | Any bytes at all are the file written for given contents if and only if they begin with 0x31 0x31, have the root at 2, the number of pools at 10, the pools from 18 on, and behind them the number of codes and the codes, each as laid out, and end there |
| `CacheCodec.Pools.SerializeParams` | util/serial.c:48-73 | Parameter names become numbers that stand for them in the pool; numbers there were keep their meaning |
| `CacheCodec.Pools.SerializeExec` | util/serial.c:75-105 | Code becomes what stands for it; cached code is refused |
| `CacheCodec.Pools.SerializeExecs` | util/serial.c:141-178 | All code becomes what stands for it in the pools as they are in the end, pools being numbered in the order they are met |
| `CacheCodec.Stream.PutPool` | util/serial.c:310-328 | Writes the bytes of a pool |
| `CacheCodec.Stream.PutCode` | util/serial.c:492-519 | Writes the bytes of code |
| `CacheCodec.Stream.PutFile` | util/serial.c:680-690 | Writes the bytes of a file |
| `CacheCodec.Stream.GetStr` | util/serial.c:355-371 | Reads a string or fails |
| `CacheCodec.Stream.GetPool` | util/serial.c:330-390 | Reads a pool or fails |
| `CacheCodec.Stream.GetCode` | util/serial.c:555-590 | Reads code or fails |
| `CacheCodec.Stream.GetCodes` | util/serial.c:651-658 | Reads code, refusing code whose pool is not there |
| `CacheCodec.Stream.GetFile` | util/serial.c:693-727 | Reads a file or fails |
| `CacheCodec.UnserializeParams` | util/serial.c:116-126 | Parameter names by number, or nothing if a number stands for no string |
| `CacheCodec.EncodeCache` | util/serial.c:738-756 | Writes a file that stands for the unit, if no code is cached |
| `CacheCodec.DecodeCache` | util/serial.c:716-735 | Loads what a file contains; fails exactly if it is no such file or a parameter has no name |
| `CacheCodec.SavedRestores` | util/serial.c:716-756 | What was saved loads as what was saved |
| `CacheCodec.SaveAndLoad` | util/serial.c:716-756 | Saving and loading a unit gives back root, parameter names and flags, instructions and pools, every string number standing for the same string, and code that shared a pool still sharing one |

## Left out

Contracts that say less than one might expect:

- Optimiser.OptExec: one direction. A program that is not tidy may still be optimised
  rightly, depending on which of several jumps happen to go; `OptLimits` has for each part
  of the condition a program that breaks only that part and that goes wrong.
- OptEmit.SameRuns: the skip over three instructions of `iter_next` and handler addresses
  set by `rprot_set` are not among the steps of the semantics; a branch opcode with an
  address is one that may be taken, any other opcode one opaque step.
- Mutator.StoreTable: where a slot is found or put is not part of this; `Stored` says that
  the cells left are those before, an update of one, or a larger table with the same
  ones. `SlotTables` has the search.
- Mutator.Clone: whether a table must not be shared is a parameter, and so are the identity
  of the new object and whether its type has a destructor.
- Mutator.ListSet: the buffer of a list lies outside the collected heaps; its elements are
  a value of the object, so the buffer itself, which a copied list goes on using, is not
  captured.
- Collector.State.Collect: whether to collect at all (the ratio of live memory, the number
  of times a collection was skipped), and the reset of inline caches at 2^50 ids, are left
  out; whether a collection of the nursery filled a block is the parameter `grew`.
- Collector.State.Prepare: collection ids do not wrap around.
- Collector.State.Traverse: the traverser of an object's type visits items and scope; the
  one of type objects, which looks at heaps, is left out.
- Coroutine.Coroutine.InvokeMatch: matching arguments with parameters is not part of this;
  the arguments are handed out in order.
- Coroutine.Coroutine.PutOperator: which operator an object has, and following a chain of
  objects that are no functions, are parameters.
- Coroutine.Coroutine.PushBlockC: an argument larger than the block is ruled out; the
  source does not look.
- Coroutine.Coroutine.Relocate: the address of the new stack is a parameter.
- SlotTables.SlotTable.Merge: not of a table into itself.
- SlotTables.SlotTable.SetSlot: the bits for operators a table blocks, and the operator
  list beside the slots, are left out.
- JsonCodec.Encode: numbers are their text, and what a character above ASCII looks like in
  UTF-8 is a parameter; `true` and `false`, which the source reads as 1 and 0, are never
  printed.
- JsonText.RoundTrip: the members of an object are a list, in the order they are printed and
  read; the source has them in a slot table, which has an order of its own.
- JsonGrammar.DecodesText: what is made of texts outside the grammar is not part of it. The
  parser takes some, among them lists with a comma at the end, other numbers the VM
  converts, control characters in strings, and escapes of bytes by number; `JsonText` has
  what it makes of them.
- JsonCodec.Parse: that it fails is modelled, where and with which message is not.
- StringPools.StringPool.Register: for a string given with its length the source hashes
  beyond a NUL; the method is the variants that hash up to the NUL, which all variants
  do for strings without one, and `StringPools.GivenLength` is about the others.
- StringPools.StringPool.FromList: not from an empty list, for which the source makes a
  table without slots.
- Heaps.Heap.Alloc: the system always has memory.
- Heaps.Pool.Dump: only of an element in use; the source trusts its caller.
- Threads.RunsInv: native code that runs the coroutine it is in once more clears `active`
  early and is left out, and so is the clock that asks threads to hand over; a step is what
  a thread does between two points where another one can run.
- CacheCodec.SaveAndLoad: lengths fit a word; line numbers and the flag for old-style
  parameters are not in the format.

Not modelled:

- Hash functions are uninterpreted; any function of the key will do.
- Mark bits and pointers packed into one word are separate fields.
- Files, streams to disk, module loading, consoles and profiling.
- Printing and parsing floating-point numbers.
- The compiler from the `ink` language, and small library modules.
- Freeing coroutines, and merging one object into another (`SlotTables` has the merge of
  their tables).
- Running out of memory.
