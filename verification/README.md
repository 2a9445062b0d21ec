# Runtime model of JelloVM

A Dafny model of the mutable core of JelloVM, a bytecode virtual machine written in C11: the garbage collected
heap, the field tables of objects and prototype reads, the machine of call frames, exception handlers and
fuel, the bounded channel between threads, the lowering of bytecode for the JIT, streaming MD5 and the UTF-8
codec. `dafny verify dfyconfig.toml` checks everything.

## The parts

**Heap** (`GcGraph`, `GcMark`, `GcLists`, `GcHeap`, `GcFields`, `GcOps`, `GcCopy`; `src/gc.c`). Blocks are
objects of a class with `next`, `marked` and contents; the object list and the recycle list are linked in place,
with ghost sequences saying what they contain. Reachability is defined by steps along references. `Heap.Collect`
marks from the six root sources with an explicit stack and sweeps in place; its contract says that the objects
left are exactly the reachable ones, in order, unchanged and unmarked. `Heap.Valid` is kept by every operation:
both lists are linked, duplicate-free and disjoint, at most 8192 blocks are recycled, the byte count is the sum
of sizes, no reference and no root dangles, and a ledger balances what was handed out with objects (separately
allocated blocks, finalizers) against what was given back. On top of it `Closure` and `ListCons` are proved to
lose no part, whatever collections their allocations trigger; `GcCopy` says exactly when instructions that do
not root what they make lose it. `GcFields` says what a collection keeps in terms of fields alone: exactly what
a chain of fields leads to from the machine, and afterwards no field points to anything else.

**Object table** (`ProbeTable`, `ObjectTable`, `AtomHash`, `ProtoChain`; `src/types/object.c`,
`src/vm/ops/ops_obj.c`). A class over three arrays with tombstones, doubling rehash and the inline cache, proved
to be a map. Prototype reads are compared with a specification by the nearest ancestor.

**Frame machine** (`FrameLayout`, `VmState`, `Vm`, `VmMeaning`, `VmRuns`; `src/vm/frame.c`, `src/vm/exc.c`,
`src/vm/ops/exec_loop.c`, `src/vm/ops/ops_control.c`). A class with frames, handlers, the byte stack and fuel;
every instruction keeps the relation between the three stacks. `VmMeaning` follows calls, tail calls and
handlers over several instructions, register by register, and `VmRuns` holds single programs and their runs.

**Channel** (`ChannelCell`, `ChannelSpec`, `ChannelWrap`, `Channel`; `src/thread/channel.c`). A state machine of
critical sections with sleeping and signalled waiters, the theorems over all its runs, and a class whose methods
are its steps.

**JIT lowering** (`JitIr`, `JitSim`, `JitProof`, `JitMeaning`; `src/jit/jit_ir.c`). The lowering loop, a meaning
for bytecode and one for the lowered form as the x64 emitter reads it, when the two agree, and what the
instructions compute in numbers.

**MD5** (`Md5Block`, `Md5`, `Md5Check`; `libs/std/crypto/md5.c`) against sections 3.1 to 3.5 of RFC 1321, with a
digest of its test suite. **UTF-8** (`Utf8`, `Utf8Rfc`, `Unicode`; `libs/std/core/unicode.c`) against RFC 3629.
`Arith` holds division facts, `Base` the shared types.

## What the code does not do

Where a promise of the documentation, or what one would expect, does not hold of the code, the model follows
the code. The condition under which it does hold is proved, as an equivalence except for the fuel bound, whose
condition is sufficient and whose four clauses are each shown to be needed by a run.

- Messages of a channel stay in order in all runs if and only if its capacity divides 2^32, because `head` and
  `tail` are 32-bit counters used modulo the capacity: `ChannelWrap.FifoIffCapDividesWrap`. The default of 64
  is safe.
- `ensure_cap` does not count tombstones, so removals can use up all empty slots. A probe ends if and only if
  the key is present or a slot is empty (`ProbeTable.ProbeEndsIff`); `AtomHash.ProbeHangs` gives a sequence of
  calls after which probes never end.
- The repository's `README.md:95` says that with `JELLO_FUEL` set to N a program traps after N loop backedges and
  calls. For every program, the charged instructions executed and the fuel left add up to N, and a charged
  instruction without fuel traps (`Vm.Machine.Step`, `Vm.Machine.Run`). But not all that goes back is charged.
  `Vm.ExecWithFuel` proves that a program stops, with a bound on its instructions, if it has no TRY, no tail call,
  no conditional jump back and no SWITCH_KIND back. Each clause is needed: tail calls and jumps back of the two
  other kinds are not charged (`VmRuns.TailCallNeverStops`, `VmRuns.JmpIfBackNeverStops`,
  `VmRuns.SwitchBackNeverStops`), and the fuel trap can be caught like any other, after which the program runs on
  without fuel (`VmRuns.CaughtFuelNeverStops`). Each of these programs breaks one clause only and runs for any
  number of rounds. The bound is that of the interpreter: the self-jump of `JitProof.LoopToItself` meets all four
  clauses, and compiled code never stops it. In builds with `JELLOVM_REFERENCE_INTERP` that dispatch by computed
  goto not even JMP is charged (`src/vm/ops/dispatch.c:276-284`); they are not part of the model.
- A jump onto an entry of a SWITCH_KIND table is in range, which is all that is checked of it, and the entry
  panics: `VmRuns.JumpIntoTablePanics`.
- `jello_object_copy` clones numeric boxes while its new object is in no root, so that a clone that collects takes
  the copy. It is kept if and only if no clone finds the threshold reached (`GcCopy.ObjectCopy`);
  `GcCopy.CopyIsLost` leads to a copy that is lost. The record of a caught trap has the same fault
  (`GcCopy.CatchRecord`).
- Compiled code differs from the interpreter at an instruction exactly if the result is narrowed to 8 or 16
  bits, if a comparison names register 255, which the emitter takes to mean zero, or if, under a fuel limit, a
  branch lands on a backward JMP, whose fuel check it skips: `JitProof.AgreesExactly`. `JitProof.LoopToItself`
  shows what the last one means for a loop.
- Lead bytes from 0xF8 on are accepted as if they announced four bytes: `Utf8.AcceptedExactly`.
- A thrown integer 4 is caught as the record of a failed assertion: `VmState.ThrownArrives`.
- A tail call in place into a smaller function moves the frame up and the top of the byte stack down. That frame
  and the next one are disjoint if and only if the old frame was at least twice the new one plus the next
  (`Vm.Machine.ShrinkAndPush`); `VmRuns.FramesOverlap` gives a program whose two live frames come to share all
  bytes. Without such tail calls no two live frames share a byte in any run (`Vm.Machine.Run`).
- The load check of object tables is computed in 32 bits. It means what it says for every load if and only if
  the capacity is at most 2^29: `ObjectTable.LoadCheckExact`.
- The room check of a text buffer is computed in 32 bits too; `Unicode.UnicodeBuf.Add` says exactly when it
  answers yes without room, and `Unicode.RoomWraps` leads to such a buffer. The check of the decoder that a
  character fits is right at every position if and only if the text has at most 2^32 - 4 bytes:
  `Unicode.FitCheckExact`.

## How the source is rendered

- C integers are unbounded numbers here; where 32 or 64 bits matter the reduction is written out. A mask with
  `cap - 1` of a power of two is a remainder, UTF-8 shifts and masks are quotients and remainders.
- The hash of the table and the block step of MD5 are parameters; the results hold for any of them, and
  `AtomHash` and `Md5Block` give those in use. The calls into the scheduler (which waiters a signal wakes), the
  effect of instructions outside the model, and the contents of registers before they are written are
  parameters too.
- Memory is never exhausted. Growing of handler, frame, mark and root stacks by `realloc` is that of a `seq`.

## Model

| member | source | states |
|---|---|---|
| `GcGraph.ReachLeast` | src/gc.c:170-216 | reachability is the least set with the roots that is closed under the references that tracing follows |
| `GcGraph.ReachGrows` | src/gc.c:287-363 | what was reachable stays reachable while its contents and roots stay, whatever else changes |
| `GcGraph.PushBoth` | src/gc.c:140-168 | marking two groups of objects one after the other pushes each unmarked object exactly once |
| `GcGraph.TracingGoesOn` | src/gc.c:323-328 | a round of the mark loop keeps the tri-colour invariant: traced objects refer to marked ones only, nothing is on the stack twice |
| `GcGraph.TracingEnds` | src/gc.c:323-328 | when the stack is empty exactly the reachable objects are marked |
| `GcMark.MarkPtr` | src/gc.c:156-162 | marks one object and pushes it only if it was not marked |
| `GcMark.MarkVal` | src/gc.c:164-168 | a value is followed only if it is a pointer |
| `GcMark.MarkVals` | src/gc.c:164-168 | the marking loop over values marks and pushes exactly their objects |
| `GcMark.MarkPtrs` | src/gc.c:299-310 | the loop over the constant caches |
| `GcMark.MarkSlots` | src/gc.c:190-196 | of an object table only occupied slots are followed |
| `GcMark.MarkRegs` | src/gc.c:258-283 | the registers of one frame, by type |
| `GcMark.MarkFrames` | src/gc.c:252-285 | typed frames: dynamic values and pointers of every frame are roots, scalars are not |
| `GcMark.MarkCaches` | src/gc.c:311-319 | the enum caches are roots, entry by entry |
| `GcMark.TraceObject` | src/gc.c:170-216 | tracing an object of any kind marks and pushes exactly its children; raw captures are not followed |
| `GcLists.Splice` | src/gc.c:331-341 | moving the link in front of a block past it takes exactly that block out of the list |
| `GcLists.FilterMembers` | src/gc.c:331-364 | the survivors are the members of the list that are live |
| `GcHeap.Heap.constructor` | src/gc.c:30-34 | the empty heap, first collecting at one megabyte |
| `GcHeap.Heap.MarkRoots` | src/gc.c:287-321 | all six root sources are marked, nothing else |
| `GcHeap.Heap.MarkPhase` | src/gc.c:287-329 | for any heap graph, cycles included, the mark loop ends with exactly the reachable objects marked |
| `GcHeap.Heap.FreeBlock` | src/gc.c:53-57 | no block is freed twice |
| `GcHeap.Heap.BoxFreePush` | src/gc.c:53-62 | recycling puts a block in front of the list while there are fewer than 8192, and frees it otherwise |
| `GcHeap.Heap.BoxFreePop` | src/gc.c:64-76 | first fit: the first block of exactly the requested size, or none if there is none |
| `GcHeap.Heap.DestroyObject` | src/gc.c:220-249 | destroying an object gives back what it holds: data block, side table or finalizer call |
| `GcHeap.Heap.SweepOne` | src/gc.c:335-364 | a marked object stays and loses its mark; another leaves the list and is recycled or freed, never both |
| `GcHeap.Heap.Unlink` | src/gc.c:335-341 | taking a block off the object list keeps both lists in order |
| `GcHeap.Heap.Sweep` | src/gc.c:331-366 | the sweep keeps exactly the marked objects, in order, unchanged and unmarked, and adds up their sizes |
| `GcHeap.Heap.Collect` | src/gc.c:287-373 | after a collection the object list is exactly the reachable objects, the recycle list is fixed exactly, and the threshold is the larger of the doubled live bytes (at least 512 KiB) and the live bytes plus 8192*192 |
| `GcFields.ChildrenAreFields` | src/gc.c:170-216 | what is traced of an object is what its fields point to, by kind |
| `GcFields.RootsAreFields` | src/gc.c:287-321 | the roots are what the spill, the temporary roots, the caches and, while a module runs, the dynamic and typed registers point to |
| `GcFields.LiveIsReached` | src/gc.c:287-329 | an object is live exactly if a chain of fields leads to it from the machine |
| `GcFields.NothingDangles` | src/gc.c:287-363 | in good order every pointer in a field of a listed object, by kind, and in the machine is to a listed object |
| `GcFields.FilterInOrder` | src/gc.c:331-364 | of two survivors the earlier one came first before |
| `GcFields.WhatIsRecycled` | src/gc.c:344-354 | only boxes and inline objects that are not live are recycled, and all of them if there is room |
| `GcFields.ThresholdIs` | src/gc.c:366-372 | the next collection waits for the live bytes to double, or to grow by a mebibyte and a half |
| `GcFields.Owns` | src/gc.c:220-249 | what an object owns: the data of a nonempty array, a table of its own, a finalizer that is set |
| `GcFields.Collect` | src/gc.c:287-373 | exactly what a chain of fields leads to from the machine stays, in order, unchanged and unmarked; of the rest only boxes and inline objects are recycled and all others freed; the threshold in numbers |
| `GcHeap.RecycledMembers` | src/gc.c:344-354 | nothing gets onto the recycle list but blocks that were on it and swept objects |
| `GcHeap.Heap.Discard` | src/gc.c:342-358 | an unreachable block is recycled or freed |
| `GcHeap.Heap.CollectIfDue` | src/gc.c:385-387 | collects exactly when the live bytes have reached the threshold |
| `GcHeap.Heap.UnlinkFree` | src/gc.c:64-76 | the same for the recycle list |
| `GcHeap.Heap.AllocRecycled` | src/gc.c:379-402 | an allocation collects at the threshold; it uses the first recycled block of exactly the size whenever the list holds one, hands out a block that refers to nothing, and leaves every live object as it was |
| `GcHeap.Heap.Write` | src/gc.c:170-249 | writing an object keeps the heap closed and the ledger of blocks and finalizers balanced |
| `GcHeap.Heap.Close` | src/ffi/jdll_marshal.c:222-229 | an explicit close runs the finalizer if it is still set, and clears it |
| `GcHeap.Heap.ReleasedIsGone` | src/gc.c:220-249 | a finalizer or side table that was given back is held by no object any more |
| `GcHeap.Heap.PushRoot` | src/gc.c:114-124 | a pushed value becomes a root |
| `GcHeap.Heap.PopRoots` | src/gc.c:126-130 | popping shortens the root stack, and panics exactly if it is too short |
| `GcHeap.Heap.ClearFrees` | src/gc.c:78-87 | every recycled block is freed |
| `GcHeap.Heap.ClearObjects` | src/gc.c:96-104 | the shutdown loop frees every object and gives back everything held |
| `GcHeap.Heap.Shutdown` | src/gc.c:89-112 | every block is freed once, and finalizers and side tables handed out were each given back exactly once over the whole life of the heap |
| `GcOps.New` | src/types/list.c:6-13 | an object whose parts are live before its allocation has these parts after it, whatever was collected; apart from it the heap is as before, or as the collection that was due left it, and the bytes in use and the threshold are fixed |
| `GcOps.LiveSame` | src/gc.c:287-363 | while the roots and what they reach stay, nothing else becomes live |
| `GcOps.BoxFromTyped` | src/vm/box.c:83-131 | boxing a register yields a value with the register's contents and keeps all live objects |
| `GcOps.CloneNumbox` | src/vm/box.c:138-158 | a numeric box is copied to another object with the same contents, which allocates once; other values are kept, and then nothing changes |
| `GcOps.BoxCaptures` | src/vm/ops/ops_call.c:47-53 | in the capture loop every boxed value made so far survives the allocations of the later ones |
| `GcOps.BoxedClosure` | src/vm/ops/ops_call.c:46-54 | the boxed path builds a closure of all captures |
| `GcOps.RawClosure` | src/types/function.c:33-44 | plain captures are copied and need no roots |
| `GcOps.Closure` | src/vm/ops/ops_call.c:12-58 | the closure holds the contents of all captured registers; live objects are unchanged; the root stack is back at its height |
| `GcOps.ClosureHolds` | src/vm/ops/ops_call.c:11-63 | by kind of the captured register: raw numbers, boxes with the same contents, dynamic values and pointers |
| `GcOps.RawSizeNext` | src/vm/ops/ops_call.c:20-28 | the size that decides for raw captures, slot by slot |
| `GcOps.ListHead` | src/vm/ops/ops_list.c:18-20 | the boxed, and if dynamic copied, head on the root stack |
| `GcOps.ListCons` | src/vm/ops/ops_list.c:12-27 | the cell holds the boxed head and the tail of the registers; live objects are unchanged; the root stack is back at its height |
| `GcOps.HeadHolds` | src/vm/ops/ops_list.c:18-20 | the head of a cell by kind of its register; a numeric box is another one with the same contents |
| `GcCopy.WriteLoose` | src/types/object.c:274-277 | a write to an object that is in no root changes nothing else and does not make it live |
| `GcCopy.FieldsAre` | src/types/object.c:298-303 | what is copied are the occupied slots |
| `GcCopy.FiveFieldsFit` | src/types/object.c:337-341 | a table stays in the block of its object up to five fields |
| `GcCopy.LooseAfter` | src/gc.c:379-402 | an allocation keeps an object that is in no root exactly if it does not collect |
| `GcCopy.CopyField` | src/types/object.c:298-303 | a round of the copy loop: the copy is gone exactly if the clone collects, and has one more field otherwise |
| `GcCopy.CollectsMore` | src/types/object.c:298-303 | if a clone of the first fields collects, one of all the fields does |
| `GcCopy.ObjectCopy` | src/types/object.c:296-306 | the copy is kept if and only if, by the sizes of the boxes, no clone finds the threshold reached; then it has the fields of the source, with boxes of its own, and its prototype |
| `GcCopy.ObjCopy` | src/vm/ops/ops_obj.c:272-284 | the same for the instruction, which traps on null and stores the copy |
| `GcCopy.AddText` | src/vm/exc.c:184-193 | a text becomes a field of the record, or takes it exactly if its allocation collects |
| `GcCopy.CatchRecord` | src/vm/exc.c:169-196 | the record of a caught trap is kept if and only if no allocation of its texts collects; then it has its kind, message and code |
| `GcCopy.CopyIsLost` | src/types/object.c:296-306 | a heap with one object and one box on which the copy is lost |
| `ProbeTable.InsertKeepsInv` | src/types/object.c:249-264 | filling a free slot on the path of a new key keeps every key reachable by probing |
| `ProbeTable.RemoveKeepsInv` | src/types/object.c:279-288 | a tombstone in place of a removed key keeps every other key reachable |
| `ProbeTable.KeysAreOccupiedSlots` | src/types/object.c:249-288 | keys are distinct: there are as many as occupied slots |
| `ProbeTable.EmptyWithoutTombs` | src/types/object.c:337-341 | below the load limit and without tombstones some slot is empty |
| `ProbeTable.ProbeEndsIff` | src/types/object.c:110-174 | a probe ends if and only if the key is present or some slot is empty, and then within `cap` steps |
| `ObjectTable.Object.constructor` | src/types/object.c:180-189 | a new object is the empty map |
| `ObjectTable.Object.IcStore` | src/types/object.c:60-78 | the most recent entry is the atom, the older ones move down, and the oldest is dropped; only the slot changes if the atom is the most recent entry already |
| `ObjectTable.Object.InvalidateIc` | src/types/object.c:49-58 | all three cached entries are cleared |
| `ObjectTable.Object.IcTry` | src/types/object.c:80-108 | exactly a cached entry whose slot still holds the atom is a hit; an older hit changes places with the most recent entry; stale entries are no hits |
| `ObjectTable.Object.FindSlot` | src/types/object.c:110-136 | finds the key, or the free slot where an insertion keeps it reachable |
| `ObjectTable.Object.ProbeOccupied` | src/types/object.c:159-173 | the probe agrees with the map |
| `ObjectTable.Object.ScanSlots` | src/types/object.c:148-158 | the linear scan agrees with the map |
| `ObjectTable.Object.FindOccupiedSlot` | src/types/object.c:138-174 | cache, linear scan and probe agree with the map, from any cache contents |
| `ObjectTable.Object.ReinsertAll` | src/types/object.c:308-335 | the rehash loop moves every entry |
| `ObjectTable.Object.Place` | src/types/object.c:256-263 | a key written into the slot found for it can be found again |
| `ObjectTable.Object.BindEmpty` | src/types/object.c:31-39 | an empty table of the new capacity |
| `ObjectTable.Object.Rehash` | src/types/object.c:308-335 | twice the capacity, the same map, no tombstones |
| `ObjectTable.Object.EnsureCap` | src/types/object.c:337-341 | afterwards one more key fits below seven tenths; the map is the same |
| `ObjectTable.LoadCheckExact` | src/types/object.c:337-341 | the 32-bit load check means what it says for every load exactly if the capacity is at most 2^29 |
| `ObjectTable.Object.FindOrPlace` | src/types/object.c:249-264 | insertion once there is room |
| `ObjectTable.Object.Upsert` | src/types/object.c:249-264 | adds the key with null if it is new, and says where it is |
| `ObjectTable.Object.Store` | src/types/object.c:274-277 | writing through a slot changes one key |
| `ObjectTable.Object.LenCountsOccupied` | src/types/object.c:249-294 | `len` is the number of occupied slots |
| `ObjectTable.Object.WithoutRemovesProbesEnd` | src/types/object.c:337-341 | as long as nothing was removed every probe for every key ends |
| `ObjectTable.Object.Set` | src/types/object.c:274-277 | sets one key of the map |
| `ObjectTable.Object.SetSlot` | src/types/object.c:266-272 | with any hint, the slot of the key |
| `ObjectTable.Object.Has` | src/types/object.c:222-226 | membership in the map |
| `ObjectTable.Object.Slot` | src/types/object.c:241-247 | the value of a key, or nothing |
| `ObjectTable.Object.Get` | src/types/object.c:228-233 | the value in the map, or null |
| `ObjectTable.Object.GetSlot` | src/types/object.c:235-239 | a slot hint, good or stale, reads what a search reads |
| `ObjectTable.Object.Bury` | src/types/object.c:283-287 | a tombstone removes the key and nothing else |
| `ObjectTable.Object.Remove` | src/types/object.c:279-288 | removes one key of the map, leaving a tombstone |
| `ObjectTable.Object.Clear` | src/types/object.c:290-294 | the empty map, without tombstones |
| `ObjectTable.Copy` | src/types/object.c:296-306 | the same map in a table of its own, no larger than the source |
| `ObjectTable.FillWithTombs` | src/types/object.c:337-341 | eight keys with different home slots, added and removed, leave a table on which probes for all other keys never end |
| `AtomHash.ProbeHangs` | src/types/object.c:9-20 | the same with the hash in use and eight concrete atoms |
| `AtomHash.HashValues` | src/types/object.c:9-17 | three values of the hash |
| `ProtoChain.NearestDecides` | src/vm/ops/ops_obj.c:53-115 | the nearest object on the chain that holds the atom decides a read |
| `ProtoChain.DepthDecides` | src/vm/ops/ops_obj.c:148-190 | a chain that goes on past the bound means a trap |
| `ProtoChain.MissingDecides` | src/vm/ops/ops_obj.c:148-190 | the end of the chain within reach means null |
| `ProtoChain.ReadMeans` | src/vm/ops/ops_obj.c:90-112 | 1026 objects of a chain are looked at; a read traps exactly if none has the field and there is a further one |
| `ProtoChain.CycleTraps` | src/vm/ops/ops_obj.c:148-190 | on a cyclic chain without the atom every read traps |
| `ProtoChain.ReadOwn` | src/vm/ops/ops_obj.c:53-72 | an own field, with a slot hint or without |
| `ProtoChain.Consult` | src/vm/ops/ops_obj.c:98-106 | a lookup in one object changes no field of any object |
| `ProtoChain.WalkChain` | src/vm/ops/ops_obj.c:98-115 | the walk answers nearest, null or trap by the number of tables consulted |
| `ProtoChain.ObjGet` | src/vm/ops/ops_obj.c:148-190 | `op_obj_get` reads the field by the common specification |
| `ProtoChain.GetAtomTyped` | src/vm/ops/ops_obj.c:53-115 | the typed read, with any slot hint, reads what `op_obj_get` reads |
| `FrameLayout.GetFrameLayout` | src/vm/frame.c:152-179 | register slots are aligned, disjoint and inside the frame |
| `FrameLayout.LayoutIsTight` | src/vm/frame.c:166-179 | a slot of four or eight bytes starts at the first multiple of its size that is free |
| `FrameLayout.GrownCap` | src/vm/frame.c:68-74 | growing ends with enough room, in 32 bits, while no more than 2^28 bytes are in use |
| `FrameLayout.LimitsFit` | src/bytecode/loader.c:489-489 | 100000 frames of 256 registers stay below 2^28 bytes |
| `VmState.ExcBaseCounts` | src/vm/frame.c:437-437 | in a good state `exc_base` is the number of handlers owned by lower frames |
| `VmState.PushKeepsHandlers` | src/vm/frame.c:430-438 | a pushed frame keeps handlers sorted, owned and counted |
| `VmState.PopKeepsHandlers` | src/vm/ops/ops_control.c:24-27 | cutting both stacks at a frame keeps handlers sorted, owned and counted |
| `VmState.CatchKeepsHandlers` | src/vm/exc.c:211-238 | the same for cutting at a handler |
| `VmState.EndTryKeepsHandlers` | src/vm/ops/ops_control.c:161-170 | so does popping the top frame's handler |
| `VmState.TryKeepsHandlers` | src/vm/ops/ops_control.c:148-159 | so does a handler of the top frame |
| `VmState.UpdateKeepsHandlers` | src/vm/frame.c:513-567 | so does changing a frame that keeps its `exc_base` |
| `VmState.ReturnDropsOwnHandlers` | src/vm/ops/ops_control.c:24-27 | the handlers above `exc_base` are exactly those of the returning frame |
| `VmState.CatchDepth` | src/vm/exc.c:211-232 | the handlers above the chosen one are all unwilling, the chosen one is willing |
| `VmState.ThrownArrives` | src/vm/exc.c:137-142 | a thrown value arrives as itself if and only if it is not the integer 4 |
| `VmState.SumBound` | src/vm/frame.c:363-369 | frames of bounded size have a bounded sum |
| `VmState.RoomForOneMore` | src/vm/frame.c:68-91 | below the frame limit another frame always fits under 2^28 bytes |
| `VmState.ReplaceContiguous` | src/vm/frame.c:549-554 | after a replacement frames lie end to end exactly if the frame kept its start |
| `VmState.ContiguousIsDisjoint` | src/include/jello/internal/vm_internal.h:311-318 | frames that lie end to end share no byte |
| `Vm.Machine.constructor` | src/vm/interp.c:60-67 | one frame at offset 0 without a caller, with the registers of its function, and all fuel |
| `Vm.Machine.RfRelease` | src/vm/frame.c:128-150 | a released frame gives its bytes back |
| `Vm.Machine.StackBump` | src/include/jello/internal/vm_internal.h:311-318 | a frame starts at the old top and fits under the capacity |
| `Vm.Machine.ExcPop` | src/vm/exc.c:90-95 | takes the top handler, if there is one |
| `Vm.Machine.ExcPopForFrame` | src/vm/exc.c:97-102 | drops the top handlers of one frame and no others |
| `Vm.Machine.UnwindAllFrames` | src/vm/exc.c:104-115 | no frame and no byte is left |
| `Vm.Machine.CutFrames` | src/vm/exc.c:228-234 | drops the frames above the catching one, and no handler below it |
| `Vm.Machine.ExcDispatch` | src/vm/exc.c:198-245 | control goes to the innermost willing handler; lower frames and handlers are untouched; without one nothing is left |
| `VmMeaning.Dispatch` | src/vm/exc.c:198-245 | by fields: who catches, where the frame goes on, the thrown value or a record with the pending code in the register of the handler, and nothing else changed |
| `Vm.Machine.FuelCharge` | src/vm.c:106-114 | charges one unit, or traps at zero, only under a limit |
| `Vm.RoundCharges` | src/vm.c:106-114 | a round takes a unit exactly for a call or a JMP back while there is one, and traps for one of these without |
| `Vm.Machine.PushFrame` | src/vm/frame.c:353-498 | a new frame with its arguments on top, or a trap at 100000 frames; sum of totals, handlers and capacity stay right |
| `VmMeaning.EntryIs` | src/vm/frame.c:446-498 | the registers of a new frame are its arguments, then what the memory holds |
| `Vm.Machine.ReplaceFrame` | src/vm/frame.c:506-696 | all three paths: the callee inherits return register, `exc_base` and caller flag, and top is the sum of totals |
| `VmMeaning.InPlaceWhen` | src/vm/frame.c:332-351 | arguments are copied in place for the function itself, or with agreeing types, and never more than 32 |
| `Vm.Machine.ShrinkAndPush` | src/vm/frame.c:549-554 | after a tail call that shrinks the top frame in place, that frame and the next one pushed are disjoint exactly if the old frame was at least twice the new one plus the next |
| `VmRuns.FramesOverlap` | src/vm/frame.c:549-554 | a program of two functions whose two live frames occupy the same four bytes after two rounds |
| `Vm.Machine.Ret` | src/vm/ops/exec_loop.c:93-153 | returns the value, removes exactly the frame's handlers; the panic on `exc_base` cannot happen |
| `Vm.Machine.Jmp` | src/vm/ops/exec_loop.c:155-168 | jumps, charging fuel exactly if it goes back |
| `Vm.Machine.JmpIf` | src/vm/ops/exec_loop.c:169-178 | jumps if the condition holds, never charging |
| `VmState.DeltaIsOneOf` | src/vm/ops/ops_arith.c:486-492 | that distance is the default or that of an entry of the table |
| `VmState.FirstEntryDecides` | src/vm/ops/ops_arith.c:486-492 | the first entry with the kind decides, and the default only if none has it |
| `Vm.Machine.Switch` | src/vm/ops/ops_arith.c:474-497 | jumps, from the end of its table, by the first entry with the kind or else the default, and never charges |
| `Vm.Machine.Try` | src/vm/ops/ops_control.c:148-159 | pushes a handler of the running frame |
| `Vm.Machine.EndTry` | src/vm/ops/ops_control.c:161-170 | pops the frame's own handler, and panics exactly if the top one is not its own |
| `Vm.Machine.Call` | src/vm/ops/exec_loop.c:196-220 | one unit of fuel, then a frame or the overflow trap |
| `VmMeaning.CallReturns` | src/vm/ops/exec_loop.c:93-220 | a call of a function that returns an argument puts that argument into the register asked for, two rounds later, and changes nothing else but one unit of fuel |
| `VmMeaning.TailCallReturns` | src/vm/ops/exec_loop.c:250-280 | after a tail call it is the caller of the frame that gets the value; the frame and its handlers are gone, and no fuel is used |
| `VmMeaning.ReturnRound` | src/vm/ops/exec_loop.c:93-153 | a return passes its register on and removes exactly the handlers of its frame |
| `VmMeaning.TryCatches` | src/vm/exc.c:198-245 | a throw inside a TRY goes on at its target with the thrown value in its register, and the handler stack is back at its height |
| `VmMeaning.CallAtLimit` | src/vm/frame.c:363-369 | the call at 100000 frames raises trap 5 |
| `VmMeaning.NoFuelLeft` | src/vm.c:106-114 | without fuel calls and jumps back raise trap 6, and everything else goes on as without a limit |
| `Vm.Machine.Throw` | src/vm/ops/ops_control.c:172-182 | the payload is pending as thrown |
| `Vm.Machine.Execute` | src/vm/ops/exec_loop.c:60-676 | every instruction does what `Does` says of frames and handlers, keeps all invariants, panics in exactly three cases (a foreign handler, too many arguments, an entry of a table), and is charged exactly if it is a call or a JMP back |
| `Vm.DoesKeepsContiguous` | src/vm/ops/exec_loop.c:60-676 | in a program whose tail calls cannot shrink a frame in place every instruction keeps the frames end to end |
| `Vm.Machine.Step` | src/vm/ops/exec_loop.c:25-60 | a round handles a pending exception, then fetches, charges and executes the next instruction of the frame in control; for `ForwardOnly` programs fuel and remaining instructions together go down by the instructions executed; for every program charged instructions and fuel add up to the same, and a charged one without fuel traps |
| `Vm.RoundSpins` | src/vm/ops/ops_arith.c:474-497 | a round at a conditional jump or a switch that leads to itself changes neither frames nor fuel |
| `Vm.RoundKeepsContiguous` | src/vm/ops/exec_loop.c:25-676 | so does a whole round, including a dispatch that drops frames |
| `Vm.Machine.Run` | src/vm/ops/exec_loop.c:25-676 | after any number of rounds the machine is in a good state or has panicked; if no tail call in place can shrink a frame, all live frames lie end to end and no two share a byte; under a limit the charged instructions executed and the fuel left add up to the fuel there was, in every program |
| `Vm.Machine.ExecLoop` | src/vm/ops/exec_loop.c:25-676 | with fuel, and JMP as the only way back, the loop of the interpreter ends |
| `Vm.Machine.Spin` | src/vm/ops/exec_loop.c:169-178 | a conditional jump or a switch that leads to itself runs for any number of rounds on unchanged fuel |
| `Vm.ExecWithFuel` | README.md:95-95 | if JMP is the only way back, N units of fuel allow the interpreter at most N*(M+1)+M instructions, M being the longest function |
| `VmRuns.JmpIfBackBreaksOne` | src/vm/ops/exec_loop.c:169-178 | a program that breaks only the condition on conditional jumps back |
| `VmRuns.JmpIfBackNeverStops` | src/vm/ops/exec_loop.c:169-178 | a program with a conditional jump to itself, started from its entry, runs for any number of rounds on unchanged fuel |
| `VmRuns.SwitchBackBreaksOne` | src/bytecode/check.c:759-776 | such a program passes the checks and breaks only the condition on switches |
| `VmRuns.SwitchBackNeverStops` | src/vm/ops/ops_arith.c:474-497 | so does a switch without entries whose default leads back to it |
| `VmRuns.TailCallBreaksOne` | src/vm/ops/exec_loop.c:250-280 | a program that breaks only the condition on tail calls |
| `VmRuns.TailCallNeverStops` | src/vm/ops/exec_loop.c:250-280 | so does a function that tail calls itself |
| `VmRuns.CatchFuelBreaksOne` | src/vm/ops/ops_control.c:148-159 | a program that breaks only the condition on TRY |
| `VmRuns.LoopGoesOn` | src/vm/exc.c:198-245 | every round of the next program leads from one state of its loop to another |
| `VmRuns.CaughtFuelNeverStops` | src/vm/exc.c:198-245 | the program that catches the fuel trap runs for any number of rounds, with no fuel left after the first n |
| `VmRuns.JumpIntoTablePanics` | src/vm/ops/ops_arith.c:499-504 | a program that passes the checks and panics at an entry of a table |
| `ChannelCell.FromValue` | src/thread/channel.c:65-124 | fails exactly on values that may not cross threads |
| `ChannelCell.CellsHold` | src/thread/channel.c:65-125 | what the cell of each kind of value holds |
| `ChannelCell.CellRoundTrip` | src/thread/channel.c:65-184 | what is received is what was sent |
| `ChannelSpec.FifoByPosition` | src/thread/channel.c:295-297 | order by ring position and order by stream position are the same when the capacity divides 2^32 |
| `ChannelSpec.SignalCovers` | src/thread/channel.c:313-329 | a signal after a change by one unit keeps sleepers covered by signalled waiters |
| `ChannelSpec.PutKeepsFifo` | src/thread/channel.c:321-325 | storing at `tail` keeps the order when the capacity divides 2^32 |
| `ChannelSpec.TakeKeepsFifo` | src/thread/channel.c:346-350 | taking at `head` hands out the oldest message |
| `ChannelSpec.RunKeepsInv` | src/thread/channel.c:295-389 | every state of every interleaving satisfies the invariant, so 0 <= count <= cap |
| `ChannelSpec.NoLostWakeup` | src/thread/channel.c:313-352 | a sleeping receiver or sender that could go on has a signalled one of its kind on the way; after close nobody sleeps |
| `ChannelSpec.ClosedForever` | src/thread/channel.c:377-389 | after close nothing is accepted any more |
| `ChannelSpec.NullMeansDrained` | src/thread/channel.c:331-344 | a blocking receive answers null only when the channel is closed and as many messages were taken as accepted, at any capacity; they are the same messages if the capacity divides 2^32 |
| `ChannelSpec.SendStep` | src/thread/channel.c:313-329 | in every run: accepted with room, asleep with the message when full, refused if and only if closed; a sleeping receiver is woken, and nobody else's message changes |
| `ChannelSpec.RecvStep` | src/thread/channel.c:331-362 | in every run, blocking or not: null only on an empty channel, and otherwise the message at the head, the oldest if the capacity divides 2^32 |
| `ChannelSpec.CloseStep` | src/thread/channel.c:377-389 | in every run: everybody is awake after a close, and nothing else changes |
| `ChannelWrap.WrapLosesMessage` | src/thread/channel.c:295-297 | for any other capacity a run in which an unread message is overwritten |
| `ChannelWrap.FifoIffCapDividesWrap` | src/thread/channel.c:295-361 | all runs deliver in order if and only if the capacity divides 2^32 |
| `ChannelWrap.DefaultCapIsSafe` | src/thread/channel.c:10-10 | the default capacity does |
| `Channel.BoundedChannel.constructor` | src/thread/channel.c:254-283 | the empty channel |
| `Channel.BoundedChannel.TakeFront` | src/thread/channel.c:346-350 | takes from `head` |
| `Channel.BoundedChannel.Put` | src/thread/channel.c:321-325 | stores at `tail` |
| `Channel.BoundedChannel.Send` | src/thread/channel.c:299-329 | a critical section of send is a step of the state machine |
| `Channel.BoundedChannel.Recv` | src/thread/channel.c:331-361 | a critical section of receive is a step of the state machine |
| `Channel.BoundedChannel.Close` | src/thread/channel.c:377-389 | close is a step of the state machine; only the first succeeds |
| `JitIr.LowerSwitch` | src/jit/jit_ir.c:265-284 | appends the switch and its entries, and fails exactly on a malformed table |
| `JitIr.LowerOne` | src/jit/jit_ir.c:227-335 | appends the code of one instruction |
| `JitIr.Build` | src/jit/jit_ir.c:818-864 | succeeds exactly on supported, well-formed code, and lowers all of it in order |
| `JitIr.Shape` | src/jit/jit_ir.c:245-256 | a fuel check comes first exactly in front of a JMP back |
| `JitIr.OwnedBy` | src/jit/jit_ir.c:53-60 | every piece of code lies between the starts of its own and the next instruction |
| `JitIr.CodeAt` | src/jit/jit_ir.c:818-864 | the code of each instruction is found at its start |
| `JitIr.Resolve` | src/jit/backend/x64/jit_x64_emit.c:377-388 | the search for a branch target |
| `JitIr.ResolveIsLanding` | src/jit/backend/x64/jit_x64_emit.c:377-388 | it finds every target but table entries, and lands behind the fuel check of a JMP back |
| `JitProof.ChainIsDelta` | src/jit/backend/x64/jit_x64_emit.c:1553-1580 | the emitted chain of comparisons picks the case the interpreter picks |
| `JitProof.StraightAgrees` | src/vm/ops/exec_loop.c:356-537 | an instruction that does not branch agrees with its code if it is faithful |
| `JitProof.SwitchAgrees` | src/vm/ops/ops_arith.c:474-497 | a switch agrees exactly if the case taken does not land behind a fuel check |
| `JitProof.JumpAgrees` | src/vm/ops/exec_loop.c:155-178 | a jump agrees exactly if it is not taken or does not land behind a fuel check |
| `JitProof.BranchDisagrees` | src/jit/backend/x64/jit_x64_emit.c:377-388 | where a branch can land behind a fuel check, some state tells the two apart |
| `JitProof.NarrowDisagrees` | src/jit/backend/x64/jit_x64_emit.c:1390-1491 | where a result is narrowed or register 255 compared, some registers tell the two apart |
| `JitProof.AgreesExactly` | src/jit/jit_ir.c:227-335 | compiled code does what the interpreter does at an instruction, for all registers and fuel, if and only if the instruction is faithful |
| `JitProof.RunsAgree` | src/jit/jit_ir.c:818-864 | whole runs have the same outcome, registers and fuel |
| `JitProof.LoopToItself` | src/jit/backend/x64/jit_x64_emit.c:377-388 | a JMP to itself uses up its fuel in the interpreter but costs compiled code one unit for ever |
| `JitMeaning.SignedIs` | src/vm/ops/exec_loop.c:519-524 | a word as a signed number is the one in range congruent to it |
| `JitMeaning.OperandIs` | src/jit/jit_ir.c:305-309 | an operand byte stands for a number from -128 to 127 |
| `JitMeaning.ApplyIs` | src/vm/ops/exec_loop.c:409-444 | sum, difference and product of signed numbers modulo 2^32 |
| `JitMeaning.MaskedIs` | src/vm/ops/exec_loop.c:409-481 | stores into narrow registers keep the number modulo 2^8 or 2^16, in range |
| `JitMeaning.InterpreterMeans` | src/vm/ops/exec_loop.c:356-535 | what every writing instruction leaves in its register, in numbers; other registers and fuel stay |
| `JitMeaning.CompiledMeans` | src/jit/jit_ir.c:250-420 | so does its compiled code where the instruction is faithful |
| `JitMeaning.LoweredConstant` | src/jit/jit_ir.c:305-309 | the immediate of a small constant is its signed operand byte |
| `JitMeaning.JumpsMean` | src/vm/ops/exec_loop.c:155-178 | where jumps go, and that going back by JMP alone takes a unit |
| `JitMeaning.DeltaMeans` | src/vm/ops/ops_arith.c:486-492 | the first entry with the kind, or else the default |
| `JitMeaning.SwitchMeans` | src/vm/ops/ops_arith.c:474-497 | where a switch goes, from the end of its table |
| `Md5Block.OpsFollowRfc` | libs/std/crypto/md5.c:37-129 | the 64 unrolled operations use the words, shifts, constants and order of section 3.4 of RFC 1321, the constants being written out from the RFC |
| `Md5Block.ProcessIsRfc` | libs/std/crypto/md5.c:37-129 | the block step with its shortened boolean functions is the RFC's, additive constants included |
| `Md5.FoldAppend` | libs/std/crypto/md5.c:131-151 | folding over complete blocks does not depend on where the message is split |
| `Md5.PadCount` | libs/std/crypto/md5.c:155-157 | padding brings the length to 56 modulo 64 with 1 to 64 bytes |
| `Md5.PaddedInjective` | libs/std/crypto/md5.c:155-169 | padding can be undone below 2^61 bytes |
| `Md5.LittleEndianRoundTrip` | libs/std/crypto/md5.c:155-169 | the length field can be read back |
| `Md5.Context.CompleteBlock` | libs/std/crypto/md5.c:139-144 | completing the block in the buffer |
| `Md5.Context.constructor` | libs/std/crypto/md5.c:29-35 | the context of the empty message |
| `Md5.BitLength` | libs/std/crypto/md5.c:158-162 | the length field assembled from two counters is the bit length modulo 2^64 |
| `Md5.Context.ProcessBlocks` | libs/std/crypto/md5.c:145-149 | the loop over whole blocks of the input |
| `Md5.Context.Absorb` | libs/std/crypto/md5.c:131-151 | however full the buffer is, the state is the fold over the whole blocks and the buffer the tail |
| `Md5.Context.Count` | libs/std/crypto/md5.c:131-138 | two 32-bit counters with carry count modulo 2^64 |
| `Md5.Context.Update` | libs/std/crypto/md5.c:131-151 | for any split into calls the context depends on the message only |
| `Md5.Context.Trailer` | libs/std/crypto/md5.c:155-162 | padding and length of the message so far |
| `Md5.Context.Finish` | libs/std/crypto/md5.c:155-169 | the digest is the fold over the padded message |
| `Md5.StdMd5` | libs/std/crypto/md5.c:171-180 | the library call computes that digest |
| `Md5Check.WordIsSum` | libs/std/crypto/md5.c:15-19 | a word is the sum of its bytes times powers of 256 |
| `Md5Check.Turned1` | libs/std/crypto/md5.c:41-67 | the rotations of the first round as products and quotients by powers of two |
| `Md5Check.Turned2` | libs/std/crypto/md5.c:68-85 | those of the second |
| `Md5Check.Turned3` | libs/std/crypto/md5.c:86-103 | those of the third |
| `Md5Check.Turned4` | libs/std/crypto/md5.c:104-129 | those of the fourth |
| `Md5Check.InitialBytes` | libs/std/crypto/md5.c:29-35 | the initial values are the bytes of section 3.3 of RFC 1321 |
| `Md5Check.PaddingBits` | libs/std/crypto/md5.c:153-157 | one bit, then zeros, up to 56 modulo 64 |
| `Md5Check.DigestOfLetters` | libs/std/crypto/md5.c:171-180 | the digest of the small letters is that of section A.5 of RFC 1321 |
| `Utf8.DecodeEncode` | libs/std/core/unicode.c:20-102 | decoding gives back what was encoded, whatever follows |
| `Utf8.DecodeEncodeAll` | libs/std/core/unicode.c:20-102 | the same for whole sequences |
| `Utf8.EncodeDecode` | libs/std/core/unicode.c:20-102 | encoding gives back the bytes exactly if the lead byte is below 0xF8 |
| `Utf8.EncodeDecodePrefix` | libs/std/core/unicode.c:51-102 | the same for whole texts, if and only if no byte is 0xF8 or above |
| `Utf8.AcceptedExactly` | libs/std/core/unicode.c:51-59 | the validator accepts exactly the encodings and texts with a lead byte of 0xF8 or above |
| `Utf8.LongLeadAccepted` | libs/std/core/unicode.c:12-14 | such a text is accepted |
| `Utf8.CompareIsBytewise` | libs/std/core/unicode.c:167-200 | encodings sort like code points, section 1 of RFC 3629 |
| `Utf8Rfc.DecodesBySyntax` | libs/std/core/unicode.c:20-49 | with a lead byte below 0xF8 exactly the syntax of section 4 of RFC 3629 is accepted, and the bits of section 3 are read |
| `Utf8Rfc.EncodesBySyntax` | libs/std/core/unicode.c:72-102 | encodings follow that syntax, with the bits of the code point |
| `Utf8Rfc.CompareMeans` | libs/std/core/unicode.c:167-200 | -1 exactly for a proper prefix or a lesser element at the first difference, 1 the other way around, 0 for the same |
| `Utf8Rfc.Examples` | libs/std/core/unicode.c:72-102 | examples of section 7 of RFC 3629 |
| `Unicode.OffsetOfEncoding` | libs/std/core/unicode.c:104-115 | on encoded text it is the length of the encoding before it |
| `Unicode.OffsetSplits` | libs/std/core/unicode.c:104-115 | an offset exists exactly for positions in the decoded text, and splits it |
| `Unicode.FitCheckExact` | libs/std/core/unicode.c:21-25 | the 32-bit check that a character fits means what it says at every position exactly for texts of at most 2^32 - 4 bytes |
| `Unicode.Validate` | libs/std/core/unicode.c:51-59 | validation is well-formedness |
| `Unicode.CodepointCount` | libs/std/core/unicode.c:61-70 | the number of code points, or the flag for malformed text |
| `Unicode.Skip` | libs/std/core/unicode.c:104-115 | stepping over code points |
| `Unicode.ByteOffsetAtCp` | libs/std/core/unicode.c:104-115 | the byte offset of a code point |
| `Unicode.Get` | libs/std/core/unicode.c:142-165 | the code point at an index, if decoding gets there |
| `Unicode.Compare` | libs/std/core/unicode.c:167-200 | compares the decoded texts |
| `Unicode.CompareAgreesWithBytes` | libs/std/core/unicode.c:167-200 | on encoded text that is the order of the bytes |
| `Unicode.CutDecodes` | libs/std/core/unicode.c:202-238 | cutting the bytes at a code point cuts the decoded text |
| `Unicode.Sub` | libs/std/core/unicode.c:202-238 | the slice of the decoded text |
| `Unicode.UnicodeBuf.constructor` | libs/std/core/unicode.c:287-307 | the empty buffer |
| `Unicode.UnicodeBuf.Grow` | libs/std/core/unicode.c:262-274 | doubles until the bytes fit, within 32 bits, and keeps the contents; fails exactly if no doubling within 32 bits holds the 32-bit sum, and answers yes without room exactly if the new length would wrap |
| `Unicode.UnicodeBuf.Add` | libs/std/core/unicode.c:309-330 | appends one valid code point; refuses exactly the invalid ones and those for which the buffer cannot grow; says exactly when the length would pass 32 bits |
| `Unicode.RoomWraps` | libs/std/core/unicode.c:262-330 | a buffer of 2^32 - 2 bytes, filled, whose length with one more code point wraps around |
| `Unicode.UnicodeBuf.Contents` | libs/std/core/unicode.c:332-348 | `chars` is the number of code points the bytes decode to |

## Left out

- Vm.Machine.PushFrame: no frame contents as bytes, so the overlap after a shrinking tail call is stated of regions, not of register values; arguments are passed without the conversion between register types; calls pass no more arguments than the callee has registers and a function has at least one register, which the loader does not check; the shortcut for numeric self calls (`vm_push_self_numeric`) has the same effect and is not a separate path.
- Vm.Machine.ReplaceFrame: does not model captured variables and bound receivers of function objects; calls through function objects, native builtins and dynamically loaded code are not part of the machine.
- Vm.Machine.Call: calls of native builtins and through function objects are not part of the machine.
- Vm.Machine.ExecLoop: ends for the programs of `ForwardOnly`; for other programs nothing is promised, and the runs of `VmRuns` show that none of the four conditions can be dropped.
- Vm.ExecWithFuel: the bound is for the same programs and for the interpreter, whereas `README.md:95` speaks of all; compiled code and the reference build are not covered.
- Vm.Machine.Ret: a returned value is stored as it is, without the conversion between register types.
- Vm.Machine.ExcDispatch: the catch target of a handler that outlives a tail call inside its TRY is not checked against the new function; a store to a register the function does not have is ignored; the message of a trap is not part of its record, and that a collection can take the record is said by `GcCopy.CatchRecord` only.
- Vm.Machine.Execute: instructions without control flow are one constructor with an arbitrary effect on one register.
- Vm.Machine.Step: nested execution (`min_call_frames`) and entering compiled code are not modelled; the check that the program counter is in range is that of debug builds.
- ObjectTable.Object.EnsureCap: capacities up to 2^29, beyond which the load check of the source no longer means what it says, see `ObjectTable.LoadCheckExact`.
- ObjectTable.Object.Upsert: capacities up to 2^29, as for `EnsureCap`; insertions and searches that would probe forever are excluded, see `ProbeTable.ProbeEndsIff`.
- ObjectTable.Object.Set: capacities up to 2^29, as for `EnsureCap`; insertions and searches that would probe forever are excluded, see `ProbeTable.ProbeEndsIff`.
- ObjectTable.Object.SetSlot: capacities up to 2^29, as for `EnsureCap`; insertions and searches that would probe forever are excluded, see `ProbeTable.ProbeEndsIff`.
- ObjectTable.Copy: capacities up to 2^29, as for `EnsureCap`; numeric boxes in values are identified with the numbers in them, so cloning them is the identity here; the clones, and the collections in which the copy can be lost, are those of `GcCopy.ObjectCopy`.
- GcCopy.ObjectCopy: which slot of the copy a field is put in is not modelled, nor that a key occurs once in a table, which `ObjectTable` proves; when a copy or a record is lost the model stops where the source goes on to write to its block.
- ProtoChain.GetAtomTyped: ends where the value is converted into the register.
- ProtoChain.ObjGet: ends where the value is converted into the register; maintenance of `proto` when the atom `__proto__` is set, removed or cleared is not modelled.
- Channel.BoundedChannel.Recv: rebuilding the value in the receiving heap, reference counts of channel handles and the ownership of byte buffers are not modelled; mutex and condition variables are atomic sections and waiter sets.
- GcHeap.Heap.AllocRecycled: the statistics counters are left out; a block on the recycle list is always free of references, so the second initialization of recycled objects is not needed in the model.
- GcHeap.Heap.Write: stands for all stores of `src/types`; what a store drops or takes up is given back or handed out in the ledger by the difference of the two contents; that a store only writes values that are on the heap is its requirement.
- GcOps.Closure: floats and 64-bit integers are opaque numbers; of the instructions that do not root their temporaries enum values and key lists are not covered.
- JitIr.Build: 64-bit and floating-point arithmetic, conversions, byte, array and object instructions, calls and constant functions, and the elision of self references are left out; all registers are 32 bits wide in the fragment.
- JitProof.RunsAgree: the emitter's register cache and machine code are not modelled; the meaning of the lowered form follows what the emitter writes for each instruction.
- Md5.Context.Update: inputs of a call are shorter than 2^32 bytes, as the length parameter is.
- Unicode.CodepointCount: inputs are shorter than 2^32 - 1 bytes.
- Unicode.Validate: stands for the source on inputs of at most 2^32 - 4 bytes, see `Unicode.FitCheckExact`.
- Unicode.Get: stands for the source on inputs of at most 2^32 - 4 bytes, see `Unicode.FitCheckExact`.
- Unicode.Compare: stands for the source on inputs of at most 2^32 - 4 bytes, see `Unicode.FitCheckExact`.
- Unicode.Sub: stands for the source on inputs of at most 2^32 - 4 bytes, see `Unicode.FitCheckExact`.
- Unicode.ByteOffsetAtCp: stands for the source on inputs of at most 2^32 - 4 bytes, see `Unicode.FitCheckExact`.
- Unicode.UnicodeBuf.Add: where the buffer has no room although growing it succeeded, the model stops with `NoRoom` and leaves the buffer as it was, because the memory behind the buffer is not modelled.
- Sockets, processes, files, the loader and validator, profiling, traces and the REPL are not modelled; checks of the loader and the validator appear as preconditions only.
