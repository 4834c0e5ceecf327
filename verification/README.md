# Lua 5.1.4 with reference counting: models and proofs

This project models the core algorithms of Lua 5.1.4 as extended by a reference
counter on top of the incremental mark and sweep collector, and proves what they
are for.  It covers the default build, in which the counter is on.  `dafny verify
dfyconfig.toml` checks everything.

## What is modelled

**The hybrid collector** (`Gc*.dfy`, `LinkedLists.dfy`).  `GcState.State` is the heap
with its root list, string buckets, open upvalues, gray lists, colors, counts,
phase and sweep cursor.  Every action is a function on it: a cascade of releases
(`GcRelease`), marking (`GcMark`, `GcAtomic`, `GcCycle`), sweeping (`GcSweep`),
counted stores and barriers (`GcStore`), allocation, strings and upvalues that are
found again, closing, and type metatables (`GcObjects`, `GcFound`).  `GcMachine.Next`
lets them happen in any order.  The invariant `Inv` says that every object is on
exactly one list, that live objects refer to live objects only, that counts cover
the holders, and what the colors mean in each phase.  `GcSafety` draws the
conclusions for all runs, `GcFull` shows that a full collection leaves exactly what
can be reached or is fixed.  `GcPrompt` shows that counting frees at once: in no state
of any run is there an object with a count of zero, apart from fixed ones, finalized
userdata, and upvalues, which close without having been counted.  `GcEffects` says what
the steps do besides: the order of the root list, what the atomic step separates, what
new objects look like.  `GcHeap.GlobalState` keeps the same state the way the
program does, with link fields updated in place, and each of its methods is proved
to do what the function does.  Two facts about the code came out of this.  Sweeping
leaves the counts of children alone, so equality of counts and holders cannot
hold; "at least" does.  And `luaC_barrierback` writes to the head of `grayagain` in
every phase, while a release takes a table off that list in the mark phase only: in
a sweep the head can be freed memory.  `GcHeap.GlobalState.SetObj` says for every
store exactly when its barrier stays on allocated objects, `GcHead.StaleInRuns` for
every run when that fails, `GcStore.SafeOutsideSweep` that it never does outside a
sweep, and `GcStale.WriteToFreed` gives a run from a fresh state after which it does.

**The table** (`TableState.dfy`, `TableSizes.dfy`, `TableWalk.dfy`, `Table.dfy`).  The node
vector is an array whose `next` links form chains; a rank that grows along the links
shows that there are no circles although reused nodes keep their link and chains of
different main positions merge.  `Tables.Table` is the class with `luaH_get`, `luaH_set`,
`newkey`, `rehash`, `resize`, `luaH_next` and `luaH_getn`.  A dead key keeps its address and
`findindex` compares addresses; the invariant says that none stands before a live key
of its address on the way to it, so that traversal by key is exact
(`TableWalk.WalkComplete`).  A rebuild that fails with
"table overflow" loses nothing, although the array part has grown by then:
`Tables.Table.TornKeeps`.

**The code generator** (`Bytecode.dfy`, `JumpLists.dfy`, `Runs.dfy`, `Courses.dfy`,
`ExprMeaning.dfy`, `ExprFinish.dfy`, `ExprSteps.dfy`, `CodeGen.dfy`).  Expressions of constants,
locals, upvalues, comparisons, `not`, `and` and `or` are compiled by a class whose code,
pending jump list, constants and free register change in place.  A run of unfinished
code may leave through jumps that have no target yet, and may come to code by jumps
that wait for it.  `luaK_jump` takes the jumps that wait for the next instruction into
its list, values and all, so that `((1 or false) and true) or false` gives 1
(`CodeGen.Leaks`).  `Courses.Course` therefore says, run by run, where the code of an
expression leaves and which value it carries; `CodeGen.FuncState.CompileToReg` shows for
every expression that the code does just that, `Courses.Exact` when the value is the
right one, and `Courses.CleanExact` which expressions always get it.  `luaK_nil` and its
shortcuts are part of this, with `lasttarget`, the mark that forbids them.

**Patterns.**  `Patterns.dfy` gives the choices a pattern offers, in order of priority,
`Match.dfy` the backtracking matcher, which finds the best path through them, and
`StringFind.dfy` find, match, gmatch and gsub.  `PatternText.dfy` says item by item, and
character code by character code, what a pattern means as it is written;
`MatchTrail.dfy` follows the way of a match, and what `string.find` and the others deliver
is told by the places on that way where captures are opened and closed.

**The expression loop of the parser** (`Parser.dfy`) reads every tree from the tokens
with the brackets that the levels of section 2.5.6 of the Lua 5.1 Reference Manual want.
**Precompiled chunks** (`ChunkFormat.dfy`, `ChunkTrip.dfy`, `ChunkStream.dfy`) make round
trips, and `ChunkLayout.dfy` says of every byte of a dump what it is.  **Quicksort**
(`Sort.dfy`), **open upvalues** (`Upvals.dfy`) and **the string table** (`StringTable.dfy`)
complete the picture.  Two more facts about the
code: the plain-search shortcut of `string.find` is exact only for patterns without
`)` and without zeros (`StringFind.ShortcutExact`), and a function nested deeper than
the loader's call limit can be dumped but not loaded (`ChunkTrip.UndumpDump`).
`Seqs.dfy` and `Bits.dfy` hold what several modules share.

Calls into the outside world are parameters: the order of `table.sort`, hash values,
the comparison of values, the replacement function of `gsub`, the chunks a reader
delivers, the status a writer returns, the verdict of the bytecode checker, and the
address of a new object.

## Model

| member | source | states |
|---|---|---|
| Bits.LmodRemainder | src/lobject.h:653-654 | The low bits of a hash value, for a power of two, are its remainder, as luaS_resize asserts. |
| Bits.XorBits | src/lstring.c:93-94 | The exclusive or of two numbers has exactly the bits that one of them has and the other has not. |
| GcRelease.HeldInChange | src/lobject.h:147-165 | When the slots of one listed object change, the number of counted references to x changes by exactly the change in that object. |
| GcRelease.NobodyHolds | src/lobject.h:147-165 | An object whose count is at most zero is referred to by no global root, by no slot of a live object and by no decrement still to come. |
| GcRelease.RemoveSound | src/lgc.c:992-1255 | Unlinking and freeing an object whose count has run out keeps every list, closedness and count coverage, with the slots of the freed object as the new work. |
| GcRelease.DropShrinks | src/lgc.c:1230-1255 | Every single drop either frees an object or shortens the work: the recursive releases terminate. |
| GcRelease.Release | src/lobject.c:238-241 | A cascade of releases of any length ends in a sound state with nothing left to drop; what it frees is in GcRelease.ReleaseExact. |
| GcRelease.ReleaseKeeps | src/lgc.c:931-1255 | A cascade, at any point of a cycle, keeps the color invariants of the phase it falls into; objects only disappear and counts only go down. |
| GcRelease.ReleaseExact | src/lobject.h:147-165 | What a cascade frees and what it leaves, in the fields of the objects: each object left has given up exactly the references to drop and those of the objects that are gone; if that used up its count it is fixed, a finalized userdata or an open upvalue; and an object that is gone is none of these and had no other references. |
| GcRelease.PathSurvives | src/lgc.c:992-1255 | Every path from a root is a path after the cascade, and its end is still allocated: nothing reachable is released. |
| GcMark.Mark | src/lgc.c:78-135 | Marking an object terminates, only darkens white objects and only adds to the gray list. |
| GcMark.MarkKeeps | src/lgc.c:78-135 | Marking one of the outstanding targets discharges it: no black object refers to a white one but for the other targets, and the gray lists hold exactly the gray objects. |
| GcMark.MarkAllKeeps | src/lgc.c:188-279 | Marking all values of a list leaves none of them white and keeps the marking invariants. |
| GcMark.PropagateMark | src/lgc.c:324-390 | One propagation step makes progress: fewer white or fewer gray objects. |
| GcMark.PropagateMarkKeeps | src/lgc.c:324-390 | One propagation step keeps the tri-color rule and the gray lists, including threads that stay gray on grayagain. |
| GcAtomic.PropagateMarkInv | src/lgc.c:324-390 | propagatemark keeps the invariant of the whole mark phase and unmarks nothing. |
| GcAtomic.PropagateAll | src/lgc.c:393-397 | propagateall ends with an empty gray list and the mark invariant. |
| GcAtomic.RemarkUpvals | src/lgc.c:659-666 | The values of marked open upvalues are marked. |
| GcAtomic.RemarkGrayagain | src/lgc.c:669-703 | Everything the back barriers and stacks left on grayagain is traversed again. |
| GcAtomic.MarkAtomic | src/lgc.c:669-703 | The marking part of the atomic step ends with no gray object to traverse, every thread's slots and every type metatable marked. |
| GcCycle.MarkRootInv | src/lgc.c:641-656 | markroot establishes the invariant of the mark phase from the pause. |
| GcCycle.MarkedClosed | src/lgc.c:669-703 | When marking is done, whatever a marked object refers to is marked. |
| GcCycle.FlipLive | src/lgc.c:696-703 | After the flip of the white an object is live if and only if it was marked. |
| GcCycle.AtomicInv | src/lgc.c:669-703 | The atomic step keeps the invariant of the machine: nothing live refers to what is now dead. |
| GcSweep.SweepKeepsLive | src/lgc.c:503-528 | sweeplist erases no live object. |
| GcSweep.SweepHeldIn | src/lgc.c:503-528 | Although sweeping does not decrement children, the number of live holders of every object stays the same. |
| GcSweep.SweepStringInv | src/lgc.c:738-754 | The sweep of one string bucket keeps the invariant. |
| GcSweep.SweepAtHeld | src/lgc.c:503-528 | One visit of the root list leaves the number of holders of every object as it was. |
| GcSweep.SweepOneKeeps | src/lgc.c:503-528 | A visit at the cursor keeps the sweep invariant (everything before the cursor is white of the current kind) and brings the end closer. |
| GcSweep.SweepList | src/lgc.c:503-528 | A bounded number of visits keeps the sweep invariant. |
| GcSweep.SweepEnd | src/lgc.c:755-772 | When the cursor has reached the end, every object has the current white. |
| GcSweep.SweepStepInv | src/lgc.c:755-772 | A sweep step keeps the invariant of the machine, into the finalize phase too. |
| GcStore.WriteCounts | src/lobject.h:258-262 | A counted store keeps the counts at or above the holders, the old value's decrement being outstanding. |
| GcStore.WriteColored | src/lobject.h:258-262 | A store breaks the color rule in at most one place: at the object stored into, for the value stored. |
| GcStore.BarrierForward | src/lgc.c:854-864 | The forward barrier restores the invariant while marking goes on. |
| GcStore.BarrierBack | src/lgc.c:867-884 | The back barrier restores the invariant while marking goes on. |
| GcStore.BarrierSweep | src/lgc.c:854-864 | A barrier during a sweep restores the invariant, whatever color it gives. |
| GcStore.BarrierInv | src/lgc.h:86-97 | The barrier that the kind of the object asks for restores the invariant in every phase. |
| GcStore.OverwriteKeeps | src/lobject.h:258-262 | Neither the object stored into nor the value stored is released by the store, even when the old value's release cascades. |
| GcStore.SetSlot | src/lobject.h:258-262 | Store, count, drop of the old value and barrier together keep the invariant. |
| GcStore.SetSlotExact | src/lobject.h:258-262 | A store changes one slot and leaves every count as far above the number of holders as it was; what lost its last reference is gone unless it is fixed, a finalized userdata or an open upvalue, and what is gone had no references but those that are gone. |
| GcStore.StaleHead | src/lgc.c:1125-1178 | Exactly when the head of grayagain stays an allocated object with gray links after a release: marking is going on, or the head is not what is freed. |
| GcStore.SafeOutsideSweep | src/lgc.c:867-884 | Outside the two sweep phases no store makes a barrier write to anything but an allocated object with gray links. |
| GcHead.StaleInRuns | src/lgc.c:1125-1178 | In every run, at every state of a sweep phase: the head of grayagain is no allocated object with gray links if and only if an earlier step of the sweep has freed it, since when the list has stayed and nothing with gray links has come to that address. |
| GcStale.WriteToFreed | src/lgc.c:867-884 | In a sweep one can: a run of nine steps from a fresh state, each enabled, to a state in which the next step makes the back barrier write to a freed table. |
| GcObjects.UnusedUnheld | src/lgc.c:503-528 | Nothing live refers to an address at which no object lives. |
| GcObjects.LinkInv | src/lgc.c:887-901 | A new object, put in front of the list in any phase, is live and keeps the invariant; the sweep cursor denotes the same link. |
| GcFound.NewStringInv | src/lstring.c:53-85 | A new string is live and keeps the invariant. |
| GcFound.RevivedInv | src/lstring.c:99-102 | A dead string or open upvalue that is found again becomes live: the rest of the sweep spares it. |
| GcFound.ScanOpen | src/lfunc.c:82-90 | The scan stops at the first open upvalue at the level or below. |
| GcFound.FindUpvalInv | src/lfunc.c:76-109 | Finding or making an upvalue keeps the invariant and gives a live upvalue. |
| GcFound.CloseUpvalInv | src/lfunc.c:131-151 | Closing the first open upvalue, with luaC_linkupval's recoloring, keeps the invariant in every phase. |
| GcFound.SetTypeMetatable | src/lapi.c:1133-1180 | Setting the metatable of a basic type needs no barrier to keep the invariant. |
| GcMachine.SingleStepInv | src/lgc.c:706-799 | singlestep keeps the invariant in every phase. |
| GcMachine.Next | src/lgc.c:706-799 | Every step of the machine, of mutator or collector, in any order keeps the invariant. |
| GcSafety.InitialInv | src/lstate.c:191-284 | A freshly opened state satisfies the invariant. |
| GcSafety.RunKeepsInv | src/lgc.c:706-799 | Every state of every run satisfies the invariant, for all interleavings. |
| GcSafety.CollectKeepsLive | src/lgc.c:706-799 | A collector step erases no live object and changes no slot. |
| GcSafety.CollectIsSafe | src/lgc.c:503-528 | No collector step, at any point of any run, frees an object reachable from the roots or changes what it refers to. |
| GcSafety.FreedIsUnreferenced | src/lgc.c:992-1255 | What is gone after any step is referred to by no root and no live object. |
| GcSafety.RunIsSafe | src/lgc.c:706-799 | In every run from a fresh state: whatever a step frees is then unreferenced, and a collector step frees nothing that can be reached. |
| GcSafety.MarkPhase | src/lgc.c:324-390 | While marking: no black object refers to a white one, and every gray traversable object is on exactly one gray list, once, and nothing else is. |
| GcSafety.CountsCover | src/lobject.h:147-165 | In every state the count of an object is at least the number of counted slots that refer to it; at zero there are none. |
| GcSafety.SweepPhase | src/lgc.c:503-528 | While sweeping, only objects of the current white stand before the cursor. |
| GcPrompt.StorePrompt | src/lobject.h:258-262 | A store leaves no object without a reference, those exempt apart, even where the value stored had none before. |
| GcPrompt.StepPrompt | src/lobject.c:238-241 | Nor does any other step of the machine. |
| GcPrompt.RunIsPrompt | src/lobject.c:238-241 | In every state of every run, whatever the collector is doing, an object whose count is zero is fixed, a finalized userdata or an upvalue: reference counting frees at once. |
| GcEffects.StepOrdered | src/lgc.c:887-902 | Every step keeps the order of rootgc: the userdata are behind the main thread and everything else is not. |
| GcEffects.UdataBehindMain | src/lgc.c:151-157 | In every run luaC_separateudata, which begins behind the main thread, meets all userdata and nothing else. |
| GcEffects.AtomicSeparates | src/lgc.c:157-161 | The atomic step leaves exactly the userdata that are dead by then to the sweep. |
| GcEffects.StepNature | src/lgc.c:706-799 | No step changes the kind of an object or fixes one. |
| GcEffects.RunFullGc | src/lgc.c:828-851 | At any point of any run a full collection leaves exactly the objects that can be reached. |
| GcEffects.CreatedIs | src/lgc.c:887-902 | A new object survives the store it was made for, with the kind and the slots that were asked for. |
| GcEffects.CreatedStringIs | src/lstring.c:54-85 | A new string survives the store it was made for, with its hash value. |
| GcEffects.CapturedIs | src/lfunc.c:76-109 | A captured upvalue survives the store it was captured for, open at the level asked for. |
| GcEffects.ClosedIs | src/lfunc.c:131-151 | A live upvalue that is closed has the value that its slot of the stack had; a dead one is gone. |
| GcFull.StepProgress | src/lgc.c:706-799 | Every collector step outside the pause gets closer to the pause. |
| GcFull.Finish | src/lgc.c:828-851 | Stepping until the pause terminates and keeps the invariant. |
| GcFull.CyclePrecise | src/lgc.c:828-851 | After a whole cycle only objects reachable at its start, and fixed ones, are left. |
| GcFull.FullGcExact | src/lgc.c:828-851 | A full collection leaves exactly the reachable and the fixed objects, each with the slots it had. |
| LinkedLists.UnlinkChain | src/lgc.c:1133-1139 | Joining the neighbours' next links takes exactly one object out of a list. |
| LinkedLists.UnlinkBacks | src/lgc.c:1133-1139 | The prev links stay the inverse of the next links. |
| GcLinks.CursorCut | src/lgc.c:1155-1159 | Moving the cursor back when its own link is freed keeps it denoting the right place of the list. |
| GcHeap.GlobalState.constructor | src/lstate.c:191-284 | A new global state is linked as its lists say and is an initial state of the machine. |
| GcHeap.GlobalState.FreeObject | src/lgc.c:992-1178 | The luarc_free functions: pointer surgery on rootgc, buckets, gray lists and cursor does what Remove says. |
| GcHeap.GlobalState.SubRef | src/lobject.h:150-151 | Decrement and recursive release in place do what the cascade on values does; and no object whose count has run out on the way is left, unless it is fixed, a finalized userdata or an open upvalue. |
| GcHeap.GlobalState.DropAll | src/lgc.c:1045-1178 | Dropping the members of a freed object, in order, does what the cascade does; and no object whose count has run out on the way is left, unless it is fixed, a finalized userdata or an open upvalue. |
| GcHeap.GlobalState.MarkObject | src/lgc.c:78-135 | reallymarkobject in place is Mark. |
| GcHeap.GlobalState.MarkValues | src/lgc.c:188-279 | The marking loops of the traversals are MarkAll. |
| GcHeap.GlobalState.Propagate1 | src/lgc.c:324-390 | propagatemark in place is PropagateMark. |
| GcHeap.GlobalState.WriteBarrier | src/lgc.h:86-97 | The barrier macros in place are Barrier, unless a back barrier would write to a head of grayagain that is gone; exactly when that is. |
| GcHeap.GlobalState.BarrierBack | src/lgc.c:867-884 | luaC_barrierback in place, in every phase: all link writes, and they go to allocated objects with gray links if and only if grayagain is empty or its head is one. |
| GcHeap.GlobalState.SetObj | src/lobject.h:258-262 | A counted store with its barrier in place is SetSlot and keeps the invariant, if and only if its barrier finds the head of grayagain in place; then one slot has changed, and what lost its last reference is gone unless it is fixed, a finalized userdata or an open upvalue. |
| GcHeap.GlobalState.SweepOpenList | src/lgc.c:503-528 | Sweeping the open upvalues through their links erases exactly the doomed ones. |
| GcHeap.GlobalState.SweepStringStep | src/lgc.c:738-754 | The string sweep in place is SweepString. |
| GcHeap.GlobalState.SweepRootStep | src/lgc.c:755-772 | The sweep step through the cursor is SweepStep. |
| GcHeap.GlobalState.NewObject | src/lgc.c:887-901 | luaC_link in place is Link and keeps the invariant. |
| GcHeap.GlobalState.MarkRoots | src/lgc.c:641-656 | markroot in place is MarkRoot. |
| GcHeap.GlobalState.PropagateGray | src/lgc.c:393-397 | propagateall in place is PropagateAll. |
| GcHeap.GlobalState.RemarkUpvalues | src/lgc.c:659-666 | remarkupvals in place is RemarkUpvals. |
| GcHeap.GlobalState.AtomicStep | src/lgc.c:669-703 | atomic in place is Atomic. |
| GcHeap.GlobalState.Singlestep | src/lgc.c:706-799 | singlestep in place is SingleStep and keeps the invariant. |
| GcHeap.GlobalState.FullCollect | src/lgc.c:828-851 | luaC_fullgc in place is FullGc; with GcFull.FullGcExact it leaves exactly what is reachable or fixed. |
| TableState.ReuseOk | src/ltable.c:440-478 | Reusing a node whose value is nil, its next link left in place, keeps every key findable, changes no other key, and leaves no dead key of the same address before a live one. |
| TableState.AppendOk | src/ltable.c:463-468 | Chaining the new key behind a colliding live node at home keeps the same invariant and changes no other key. |
| TableState.MoveOk | src/ltable.c:450-462 | Moving a colliding node that is not at home keeps the same invariant and changes no other key. |
| TableState.KillOk | src/lgc.c:65-75 | A dead key, when no other live key has its address, changes no mapping and keeps the same invariant. |
| TableState.InsertedValue | src/ltable.c:439-479 | After an insertion every key maps to what it did. |
| TableState.FreshOk | src/ltable.c:276-298 | A new node vector satisfies the chain invariant. |
| TableState.MainPositionIs | src/ltable.c:50-113 | In a vector of a power of two nodes a string is at home at its hash value modulo the size, numbers and addresses at theirs modulo the largest odd number up to that, false at 0, true at 1 if there is one. |
| TableState.RestoreAll | src/ltable.c:301-347 | When all old elements and nodes are put back, the contents are the old contents. |
| TableSizes.Log2 | src/lobject.c:57-72 | The result is the integer logarithm, -1 for 0. |
| TableSizes.CeilLog2 | src/lobject.h:665-665 | The slice that an integer key lies in. |
| TableSizes.NumUseArray | src/ltable.c:226-248 | Slice sums equal the number of non-nil elements up to each power of two; never past nums[MAXBITS]. |
| TableSizes.CountInt | src/ltable.c:215-223 | A key is counted, in its slice, exactly if it is an integer of the array range. |
| TableSizes.NumUseHash | src/ltable.c:251-264 | All used nodes are counted, and the integer keys among them slice by slice. |
| TableSizes.IntsCounted | src/ltable.c:356-372 | The slice sums are the numbers of distinct integer keys. |
| TableSizes.ComputeSizes | src/ltable.c:193-212 | The size is the largest dense power of two (0 if there is none) and the count is that of the keys it covers; the early exit misses no larger one. |
| Tables.Table.constructor | src/ltable.c:381-404 | A new table is empty and valid. |
| Tables.Table.Find | src/ltable.c:519-541 | Lookup finds the place of a key if and only if it is there. |
| Tables.Table.Lookup | src/ltable.c:519-541 | luaH_get returns what the table maps the key to. |
| Tables.Table.GetNum | src/ltable.c:485-499 | luaH_getnum agrees with luaH_get. |
| Tables.Table.GetFreePos | src/ltable.c:422-428 | A free node, or none when every node is used. |
| Tables.Table.Predecessor | src/ltable.c:449-453 | The walk from the colliding node's main position reaches its predecessor. |
| Tables.Table.ReuseNode | src/ltable.c:440-478 | Reuse in place is TableState.Reuse. |
| Tables.Table.AppendNode | src/ltable.c:463-468 | The append in place keeps validity and changes no other key. |
| Tables.Table.MoveNode | src/ltable.c:450-462 | The move in place keeps validity and changes no other key. |
| Tables.Table.TryInsert | src/ltable.c:439-479 | newkey without a rebuild: it succeeds whenever a node is unused. |
| Tables.Table.NewKey | src/ltable.c:439-479 | newkey changes no mapping, even where it fails; an insertion made by a rebuild never rebuilds again, so the recursion is one level deep; it fails exactly where no node is free and a rebuild would need more than 2^26 nodes. |
| Tables.Table.SetSlot | src/ltable.c:544-555 | luaH_set gives the place of the key and changes no mapping, or fails exactly as newkey does and changes nothing. |
| Tables.Table.Store | src/lobject.h:258-262 | Storing through that place changes the value of this key only; a step that a traversal allows. |
| Tables.Table.Set | src/ltable.c:544-555 | Refinement of a finite map: after a set the key has its value and every other key what it had; a nil key is refused; on "table overflow", the exact condition of which is given, the table is valid and every key has what it had. |
| Tables.Table.TornKeeps | src/ltable.c:301-309 | Where the hash part cannot be made, the grown array part covers no key of the old one: nothing is lost. |
| Tables.Table.Resize | src/ltable.c:301-347 | Any resize with room enough keeps every mapping; it fails exactly if the hash part would have more than 2^26 nodes. |
| Tables.Table.PutBack | src/ltable.c:318-341 | Re-inserting an entry finds room without a rebuild. |
| Tables.Table.CountKeys | src/ltable.c:356-368 | The counts of array part, hash part and the extra key, per power of two. |
| Tables.OptimalOnce | src/ltable.c:193-212 | There is at most one optimal array size. |
| Tables.Table.Rehash | src/ltable.c:356-372 | The array size is the optimal one, no mapping changes, and the extra key has room afterwards; it fails if and only if the keys outside that array part are more than 2^26, and then changes no mapping either. |
| Tables.Table.ResizeArray | src/ltable.c:350-353 | Growing the array part keeps every mapping. |
| Tables.Table.RemoveEntry | src/lgc.c:65-75 | A dead key changes no mapping; a step that a traversal allows. |
| Tables.Table.FindIndex | src/ltable.c:137-159 | The traversal index of a key, dead keys of the same address included whatever their kind, or the error of luaH_next. |
| Tables.Table.Next | src/ltable.c:162-183 | The entry at the first non-nil position behind the key. |
| Tables.Table.Length | src/ltable.c:619-635 | luaH_getn returns a boundary. |
| Tables.Table.UnboundSearch | src/ltable.c:591-612 | unbound_search finds a boundary, the overflow case included. |
| TableWalk.IndexExact | src/ltable.c:137-159 | findindex gives the position of every key of the table: no dead key of the same address comes first. |
| TableWalk.ReturnedKey | src/ltable.c:137-183 | The key a call returned leads the next call back to its position, whatever values changed and even if it died in between. |
| TableWalk.TouchedSound | src/lgc.c:65-75 | Stores into existing entries and dead keys, in any number, keep the invariant of the table. |
| Tables.Table.ViewSound | src/ltable.c:162-183 | Every valid table is a state in which a traversal may start. |
| TableWalk.WalkEnds | src/ltable.c:162-183 | Calling luaH_next with the key it returned, while no key is added, never fails and ends. |
| TableWalk.WalkOnce | src/ltable.c:162-183 | Each entry comes with its value of that time, and no key comes twice. |
| TableWalk.WalkComplete | src/ltable.c:162-183 | A traversal that has ended gave every key that had a value all along, exactly once. |
| Bytecode.ComparisonJumps | src/lvm.c:651-676 | A comparison takes the jump behind it if its result is A and skips it otherwise; run as the code that turns it into a value. |
| Bytecode.TestJumps | src/lvm.c:677-682 | TEST takes the jump behind it if the truth value of its register is C. |
| Bytecode.TestSetJumps | src/lvm.c:683-692 | TESTSET likewise, and copies the register exactly when it takes the jump. |
| Courses.CourseSame | src/lcode.c:422-443 | What a run of the code of an expression does depends on the active locals only. |
| Courses.Exact | src/lcode.c:571-623 | The code goes where section 2.5.3 of the Lua 5.1 Reference Manual wants it, and gives the value of that section if and only if no jump of a constant that decides its operator takes another value along; provided that no comparison was misled in this way. |
| Courses.TestExact | src/lcode.c:571-623 | A condition goes the right way even where a value is lost. |
| Courses.CleanExact | src/lcode.c:571-623 | Every run gives the value of section 2.5.3 of the Lua 5.1 Reference Manual if no jump that carries a value waits where a constant decides its operator, which can be read off the expression. |
| Courses.NoConstantsClean | src/lcode.c:571-623 | An expression without constants is of that kind, whatever waits in front of it. |
| Courses.ConstantsOnce | src/lcode.c:229-257 | No constant is twice in the table of constants of an expression, if none was before. |
| Runs.EnterExt | src/lvm.c:486-692 | A run of code that was extended and patched is the run of the code as it was, and then of the rest, also when it comes to the end by a jump that waited. |
| Runs.EnterLands | src/lcode.c:150-168 | When one more instruction is emitted, every way to the old end, by itself or by a waiting jump, leads to it. |
| Runs.ExecWiden | src/lcode.c:45-50 | A wider last LOADNIL sets its registers at the end of every run and changes nothing else, if no jump leads behind it. |
| JumpLists.Joined | src/lcode.c:185-196 | Linking the last jump of one list to the head of another gives the concatenated list. |
| JumpLists.PatchOne | src/lcode.c:150-160 | Patching one more jump of a list touches this jump and its test only. |
| ExprMeaning.TestGood | src/lcode.c:556-568 | A conditional jump behind the code of a value leaves exactly when the value is as tested, whichever way the run came to it. |
| ExprMeaning.SecondGood | src/lcode.c:777-792 | Code for a second operand behind the test of the first: a run that goes on enters it, with what a waiting jump carries, and one that leaves has left. |
| ExprMeaning.AlwaysGood | src/lcode.c:579-582 | luaK_jump at a constant that decides its operator: the run leaves with that truth value, and a jump that waits there leaves with what it carries. |
| ExprMeaning.NegateLeaves | src/lcode.c:626-658 | Exchanging the lists and removing values negates the truth value with which code is left. |
| ExprMeaning.NotJmpGood | src/lcode.c:626-658 | Inverting a comparison computes its negation. |
| ExprFinish.CmpGood | src/lcode.c:713-726 | The test emitted for two operands compares their values, exchanged for > and >=. |
| ExprFinish.EnterFinished | src/lcode.c:422-443 | After the exits are patched, every run comes to the end with the value that its jump carries, or its truth value, in the register. |
| ExprFinish.FinishGood | src/lcode.c:422-443 | exp2reg on a value: whichever way its code is left, the value arrives. |
| ExprFinish.FinishJmpGood | src/lcode.c:422-443 | exp2reg on a comparison: true or false arrives. |
| ExprSteps.SecondComputed | src/lcode.c:777-792 | The whole state of `a and b` or `a or b` follows from those of its operands. |
| ExprSteps.TestComputed | src/lcode.c:556-568 | jumponcond turns a computed expression into a condition. |
| ExprSteps.CompareComputed | src/lcode.c:713-726 | codecomp on two operands computes the comparison. |
| ExprSteps.NotComputed | src/lcode.c:626-658 | codenot on a value computes the negation. |
| ExprSteps.FinishLoads | src/lcode.c:428-438 | exp2reg with the loads of false and true leaves the value in the register. |
| ExprSteps.FinishPlainly | src/lcode.c:428-438 | exp2reg without loads is right when every jump brings its value. |
| ExprSteps.NilThere | src/lcode.c:35-56 | Where luaK_nil emits nothing, nil is in the register already. |
| ExprSteps.WidenOperand | src/lcode.c:45-50 | An operand keeps its value when the LOADNIL behind it gets wider. |
| CodeGen.FuncState.NeedValue | src/lcode.c:122-128 | Some jump of the list is controlled by no TESTSET. |
| CodeGen.FuncState.RemoveValues | src/lcode.c:144-147 | Every TESTSET of the list becomes a TEST; nothing else changes. |
| CodeGen.FuncState.PatchListAux | src/lcode.c:150-160 | Each jump is visited once; value-producing tests go to one target and all others to the default target; no other instruction changes. |
| CodeGen.FuncState.Concat | src/lcode.c:185-196 | The result is the concatenation of two disjoint lists; only open links of the first one change. |
| CodeGen.FuncState.Emit1 | src/lcode.c:829-841 | An instruction is appended, and the pending jumps lead to it. |
| CodeGen.FuncState.JumpOn | src/lcode.c:59-66 | The new jump keeps the pending ones on hold in its list. |
| CodeGen.FuncState.DischargeVars | src/lcode.c:336-366 | A variable becomes a value; the expression stays computed. |
| CodeGen.FuncState.NilToReg | src/lcode.c:35-56 | luaK_nil, with its two shortcuts: nil is in the register, and the code before the expression is what it was but for a wider LOADNIL. |
| CodeGen.FuncState.Discharge2Reg | src/lcode.c:375-411 | The value goes to the register asked for. |
| CodeGen.FuncState.Exp2Reg | src/lcode.c:422-443 | The value, whichever way it leaves its code, is in one register and both lists are empty. |
| CodeGen.FuncState.Exp2NextReg | src/lcode.c:446-451 | The value is in the next register, which is then taken. |
| CodeGen.FuncState.Exp2AnyReg | src/lcode.c:454-465 | The value is in some register. |
| CodeGen.FuncState.Exp2RK | src/lcode.c:476-501 | The value is an operand: a register, or a constant that fits; the table of constants is exactly as foreseen, and jumps still wait exactly where no instruction was needed. |
| CodeGen.FuncState.JumpOnCond | src/lcode.c:556-568 | The code goes on exactly when the value is not as tested. |
| CodeGen.FuncState.JumpAlways | src/lcode.c:579-582 | A constant that decides its operator: the jumps that lead to this place are kept on hold in the list that leaves. |
| CodeGen.FuncState.GoIfTrue | src/lcode.c:571-596 | For every expression the code goes on and leaves as the course of its runs says: on if it is true, else through the list, with its value or with what luaK_jump has taken along. |
| CodeGen.FuncState.GoIfFalse | src/lcode.c:599-623 | The same for false. |
| CodeGen.FuncState.CodeNot | src/lcode.c:626-658 | The state of an expression becomes that of its negation, whatever its kind. |
| CodeGen.FuncState.JoinOperands | src/lcode.c:777-792 | The second operand with the joined list computes the whole expression. |
| ExprSteps.AlwaysComputed | src/lcode.c:579-582 | And so does the unconditional jump of a constant that decides its operator, with the jumps that waited in the list that leaves. |
| CodeGen.FuncState.CodeComp | src/lcode.c:713-726 | The comparison that is emitted, operands exchanged for > and >=. |
| CodeGen.FuncState.Compile | src/lcode.c:729-821 | For every nesting of and, or, not and comparisons over constants, locals and upvalues the calls of the parser leave code that has the course of the expression, whatever jumps lead to its beginning; lists, kind and table of constants are exactly those of its form. |
| CodeGen.FuncState.CompileToReg | src/lcode.c:446-451 | For every such expression the code leaves the value of its course in the destination register and changes no active local. |
| CodeGen.InContext | src/lvm.c:486-692 | And it still does so inside whatever code follows it, however it is entered. |
| CodeGen.RightInContext | src/lcode.c:571-623 | That value is the one of section 2.5.3 of the Lua 5.1 Reference Manual if and only if no deciding constant has caught another one, provided that no comparison was misled. |
| CodeGen.CompileLeaking | src/lcode.c:571-623 | The code that the calls of the parser emit for ((1 or false) and true) or false. |
| CodeGen.Leaks | src/lcode.c:607-610 | That code gives 1 where section 2.5.3 of the Lua 5.1 Reference Manual gives true: luaK_jump has taken a waiting jump with a value into the list. |
| CodeGen.NothingLost | src/lcode.c:607-610 | With a comparison in place of the 1 the jump carries no value, and the code is right. |
| Sort.ScanUp | src/ltablib.c:226-229 | The upward scan stops inside the array at an element that is not before the pivot; the error is not raised. |
| Sort.ScanDown | src/ltablib.c:231-234 | The downward scan likewise, at an element not behind the pivot. |
| Sort.Partition | src/ltablib.c:218-243 | All elements below the final pivot position are at most the pivot, all above at least; the part is a rearrangement. |
| Sort.OrderThree | src/ltablib.c:204-216 | First, middle and last element are in order. |
| Sort.LowerDone | src/ltablib.c:244-253 | After the lower part is sorted only the upper one is left to sort. |
| Sort.UpperDone | src/ltablib.c:244-253 | The other way round. |
| Sort.HalfFits | src/ltablib.c:246-252 | The smaller part has less than half of the elements. |
| Sort.AuxSort | src/ltablib.c:193-254 | For every strict weak order: sorted, a rearrangement, no error, and recursion at most log2(size) deep. |
| Sort.SortTable | src/ltablib.c:256-264 | table.sort yields a sorted permutation of the whole array. |
| Patterns.SetEndFirst | src/lstrlib.c:209-218 | A set ends at its first bracket that is neither its first member nor escaped, and has no end exactly if the pattern ends before. |
| Patterns.ItemAt | src/lstrlib.c:365-440 | Every pattern item but the last ends further on, so matching terminates. |
| Patterns.LastOpen | src/lstrlib.c:194-199 | The last capture that is still open. |
| Patterns.BalancedOnce | src/lstrlib.c:281-298 | A balanced part ends in at most one place. |
| Patterns.ChoicesAt | src/lstrlib.c:365-440 | All choices of a configuration lead further on in the pattern, not back in the subject, with captures inside the subject. |
| Patterns.FirstIsBest | src/lstrlib.c:365-440 | The outcome of the matcher is where the lexicographically first path through the choices leads (a match or an error); it is "no match" if and only if no path leads anywhere. |
| Match.MatchState.ClassEnd | src/lstrlib.c:202-223 | The scanning loop finds the end that ClassEndOf defines. |
| Match.MatchState.MatchBracketClass | src/lstrlib.c:245-265 | A character matches a set if and only if it is in the union of its items, or in none for a complement. |
| Match.MatchState.MatchBalance | src/lstrlib.c:281-298 | %bxy ends at the first place where the count of x minus y is zero; NoMatch if there is none. |
| Match.MatchState.MatchCapture | src/lstrlib.c:354-362 | %1 to %9 match a repetition of the capture's text. |
| Match.MatchState.MaxExpand | src/lstrlib.c:301-313 | The repetitions are tried longest first. |
| Match.MatchState.MinExpand | src/lstrlib.c:316-326 | The repetitions are tried shortest first. |
| Match.MatchState.StartCapture | src/lstrlib.c:329-340 | A capture is opened, and taken back when the rest does not match. |
| Match.MatchState.EndCapture | src/lstrlib.c:343-351 | The last open capture is closed, and opened again when the rest does not match. |
| Match.MatchState.Match | src/lstrlib.c:365-440 | match returns the first outcome in priority order with its captures, and leaves the captures unchanged when it fails. |
| Match.AtLeastOnce | src/lstrlib.c:427-429 | x+ is x and then x*. |
| Match.LongestFirst | src/lstrlib.c:301-313 | * and + take the longest repetition that lets the rest of the pattern match. |
| Match.ShortestFirst | src/lstrlib.c:316-326 | - takes the shortest one. |
| PatternText.PartsRead | src/lstrlib.c:209-218 | A set written from single characters, ranges and %-letters ends at its bracket and holds the characters, by code, of which one of them speaks. |
| PatternText.ClassReads | src/lstrlib.c:226-275 | Each of the ten letters in both cases, any other escaped character, the dot, a plain character and a set stand for the characters with the codes listed, however they are nested in a set. |
| PatternText.ClassAlone | src/lstrlib.c:226-275 | A pattern that is one class matches one character that fits it: %d a digit by its code, %D any other one, %q a q. |
| PatternText.ItemOnce | src/lstrlib.c:433-436 | An item that is not repeated takes one character that fits. |
| PatternText.ItemOptional | src/lstrlib.c:418-423 | With ? it takes one, unless the rest then does not match. |
| PatternText.ItemLongest | src/lstrlib.c:424-429 | With * and + it takes the longest run that lets the rest match, with + at least one character. |
| PatternText.ItemShortest | src/lstrlib.c:430-432 | With - it takes the shortest one. |
| PatternText.EndMark | src/lstrlib.c:409-413 | $ at the end of the pattern matches at the end of the subject only. |
| PatternText.BalanceReads | src/lstrlib.c:281-298 | %bxy goes on behind the shortest part that begins with x and has as many y as x; x and y may be the same. |
| PatternText.FrontierReads | src/lstrlib.c:381-395 | %f goes on in place between a character outside the set and one inside it, a zero standing before the subject and behind it. |
| PatternText.ReferenceReads | src/lstrlib.c:354-362 | %1 to %9 match the text of a closed capture; a missing or open one is an error, a position matches nowhere. |
| PatternText.OpenReads | src/lstrlib.c:329-340 | A bracket opens a capture and a pair of them a position capture, up to 32. |
| MatchTrail.StepCaptures | src/lstrlib.c:329-351 | A step opens a capture at an opening bracket, closes the last open one at a closing bracket, and touches none elsewhere. |
| MatchTrail.FindOpen | src/lstrlib.c:329-340 | Where on the way of a match a given capture is opened. |
| MatchTrail.OpenOnce | src/lstrlib.c:329-340 | It is opened in one place only. |
| MatchTrail.FindClose | src/lstrlib.c:343-351 | Where it is closed. |
| StringFind.MatchCaptures | src/lstrlib.c:329-351 | Captures of a match lie inside it and are numbered by their left parentheses; earlier ones are kept. |
| StringFind.StartOf | src/lstrlib.c:499-501 | Where a search starts, for positive, negative and out-of-range positions. |
| StringFind.LMemFind | src/lstrlib.c:444-463 | The first occurrence of a string, or none. |
| StringFind.Search | src/lstrlib.c:518-532 | The leftmost start at which the pattern gives an outcome; only the first one when anchored. |
| StringFind.PushCaptures | src/lstrlib.c:485-492 | The values of all captures in order, or the error of an unfinished one; what these values are is in StringFind.MatchTold. |
| StringFind.MatchTold | src/lstrlib.c:466-492 | Whatever a match delivers is told by the way it takes: a position capture delivers the place where it is opened, counted from one, any other the text between the places where it is opened and closed, and without captures the whole match stands for them. |
| StringFind.ToldBounds | src/lstrlib.c:477-478 | A delivered position lies between the first character of the match and one behind its last, and is the first one if the pattern begins with it. |
| StringFind.StrFindAux | src/lstrlib.c:495-535 | string.find and string.match: plain search, or the leftmost match; what it delivers is told by the way of the match, and positions lie inside it. |
| StringFind.GmatchAux | src/lstrlib.c:548-571 | The next match, with what it delivers told by its way; matches never overlap and an empty one moves on. |
| StringFind.StrGsub | src/lstrlib.c:644-680 | string.gsub does what the recursive description says. |
| StringFind.DecimalDigits | src/lstrlib.c:603-605 | A position in a replacement string is its decimal digits. |
| StringFind.ReplacedText | src/lstrlib.c:590-609 | The replacement string, piece by piece: plain and escaped characters, %0, and %1 to %9 with what the captures deliver by the way of the match, or the error. |
| StringFind.ReplacedByFunction | src/lstrlib.c:621-637 | A replacement function gets what the match delivers, and the match stays when it declines. |
| StringFind.GsubHits | src/lstrlib.c:644-680 | What gsub gives, without its loop: the leftmost matches, one behind the other, are replaced, as many as there are or as were asked for, and everything else is kept. |
| StringFind.GsubKeeps | src/lstrlib.c:644-680 | A replacement that puts the match back gives the subject back. |
| StringFind.GsubCounts | src/lstrlib.c:644-680 | At most the given number of replacements. |
| StringFind.ShortcutExact | src/lstrlib.c:502-511 | Taking the plain search for patterns without special characters is right if and only if the pattern holds no ")" and no zero. |
| Parser.PrintClimbs | src/lparser.c:853-878 | Tokens printed for any place are read back there, whatever follows. |
| Parser.RoundTrip | src/lparser.c:853-878 | Every expression tree is rebuilt exactly from its tokens. |
| Parser.TwoOperators | src/lparser.c:835-843 | Between two operators the operand goes to the one of the higher level in section 2.5.6 of the Lua 5.1 Reference Manual; within a level operators associate to the left, but .. and ^ to the right. |
| Parser.UnaryOperator | src/lparser.c:846-846 | Unary operators bind tighter than every binary one but ^. |
| Parser.BinaryToken | src/lparser.c:812-832 | Which binary operator each token is, and that no other token is one. |
| Parser.UnaryToken | src/lparser.c:802-809 | Which unary operator each token is, and that no other token is one. |
| Parser.BareAlone | src/lparser.c:835-846 | Where no brackets are needed around an expression, none are needed inside it that it would not have alone. |
| Parser.PrintMinimal | src/lparser.c:853-878 | No shorter token sequence is read as the tree: the brackets printed are the ones the table requires. |
| Parser.PrintWritten | src/lparser.c:835-846 | The table of priorities asks for brackets exactly where the levels of section 2.5.6 of the Lua 5.1 Reference Manual do. |
| Parser.ByLevels | src/lparser.c:853-878 | Every tree is read back from its tokens with the brackets that those levels want, and from no fewer tokens. |
| Parser.AcceptsExactly | src/lparser.c:853-878 | The priorities make the parser refuse nothing: it accepts exactly the sequences of the plain form and stops where no operator follows. |
| Parser.LexState.ParseSimpleExp | src/lparser.c:692-712 | An operand, or an expression in brackets, is consumed. |
| Parser.LexState.ParseSubExpr | src/lparser.c:853-878 | The precedence-climbing loop over the token state reads the tree that SubExpr defines and returns the first operator left. |
| Parser.LexState.ParseExpr | src/lparser.c:881-883 | What is written for a tree with the brackets that the levels of the manual want is read as that tree; only what does not have the plain form is refused. |
| ChunkFormat.EncodeDecode | src/ldump.c:45-53 | A number read from the bytes written for it is the number. |
| ChunkFormat.DecodeEncode | src/lundump.c:52-67 | And the bytes read for a number are those written for it. |
| ChunkFormat.LoadInt | src/lundump.c:61-67 | An integer read is not negative, and the bytes read are those that DumpInt writes for it. |
| ChunkTrip.StringTrip | src/lundump.c:76-88 | A string, the null pointer included, is read back. |
| ChunkTrip.ConstantTrip | src/lundump.c:100-128 | A constant is read back. |
| ChunkTrip.ListTrip | src/lundump.c:142-172 | A list of items is read back when each item is. |
| ChunkTrip.FunctionTrip | src/lundump.c:174-202 | A function is read back with all nested ones, its source inherited where it was left out, unless it is nested too deep. |
| ChunkTrip.UndumpDump | src/lundump.c:216-230 | Loading a dump gives the same tree; a stripped dump gives the tree without debug data and with source "=?"; it fails with "code too deep" exactly if the nesting exceeds the calls left. |
| ChunkLayout.Decode8 | src/lundump.c:69-74 | Eight bytes are read lowest first. |
| ChunkLayout.IntRead | src/lundump.c:61-67 | What any bytes are as an integer: four of them, lowest first, and not negative. |
| ChunkLayout.StringRead | src/lundump.c:76-88 | What any bytes are as a string: a size, and that many bytes of which the last is dropped. |
| ChunkLayout.ConstantRead | src/lundump.c:100-129 | What any bytes are as a constant, by their tag: 0 nil, 1 a boolean, 3 a number, 4 a string, anything else an error. |
| ChunkLayout.NameExact | src/ldump.c:61-74 | The bytes of a string: size with the final zero, text, zero; the null pointer is size zero. |
| ChunkLayout.ConstantExact | src/ldump.c:78-104 | The bytes of a constant: its tag and its value. |
| ChunkLayout.DebugExact | src/ldump.c:110-127 | The bytes of the debug data: lines, local variables with name, start and end, names of upvalues; three empty lists when stripped. |
| ChunkLayout.FunctionExact | src/ldump.c:129-141 | The bytes of a function by their offsets: source, lines, the four bytes of sizes and flags, code, constants, nested functions, debug data. |
| ChunkLayout.DumpLayout | src/ldump.c:143-164 | A dump is the twelve bytes of the header and those of the function, and nothing else is the dump of that function. |
| ChunkLayout.UndumpLayout | src/lundump.c:204-230 | The function that the bytes spell is what is loaded from them. |
| ChunkStream.Zio.Fill | src/lzio.c:21-32 | A chunk is fetched and its first byte taken; end of stream exactly if nothing is left. |
| ChunkStream.Zio.Lookahead | src/lzio.c:35-45 | The next byte, left unread. |
| ChunkStream.Zio.Read | src/lzio.c:58-71 | The next bytes of the stream whatever the chunks, or the number of missing ones. |
| ChunkStream.DumpState.DumpFunction | src/ldump.c:129-141 | The bytes sent are those of the function (ChunkLayout.FunctionExact says which), or their beginning when the writer fails. |
| ChunkStream.DumpChunk | src/ldump.c:153-164 | All of the dump, byte by byte as ChunkLayout.IsChunk says, with status 0, else a prefix and the status of the failing call, with no call behind it; what counts as sent is what the writer was given and took. |
| ChunkStream.LoadState.LoadString | src/lundump.c:76-88 | Reads what the format says and leaves the rest unread. |
| ChunkStream.LoadState.LoadConstantList | src/lundump.c:100-140 | The loop loads the list (ChunkLayout.ConstantRead says what a constant is) or reports the first fault. |
| ChunkStream.LoadState.LoadFunction | src/lundump.c:174-202 | Loading from the stream is loading from the bytes; the call depth is restored. |
| ChunkStream.UndumpChunks | src/lundump.c:216-230 | The result depends on the bytes only, not on how the reader cuts them; from the bytes of a function it is that function. |
| Upvals.RingInsert | src/lfunc.c:99-103 | Linking behind uvhead keeps the ring. |
| Upvals.RingRemove | src/lfunc.c:112-116 | unlinkupval keeps the ring of the others. |
| Upvals.NewOpen | src/lfunc.c:90-98 | The new upvalue enters its list in descending order. |
| Upvals.State.OnePerSlot | src/lfunc.c:76-109 | There is at most one open upvalue for a slot, so closures over it share it. |
| Upvals.State.FindUpval | src/lfunc.c:76-109 | The upvalue of the slot if there is one, else exactly one new one; a dead one is revived. |
| Upvals.State.SetSlot | src/lvm.c:486-490 | Assigning to a local is seen through its open upvalue and no other. |
| Upvals.State.SetUpval | src/lvm.c:541-546 | Assigning to an upvalue changes what this upvalue reads and no other. |
| Upvals.State.CloseFirst | src/lfunc.c:131-151 | The first upvalue takes its value with it, or is freed when dead. |
| Upvals.State.Close | src/lfunc.c:131-151 | Exactly the slots at or above the level are closed, and every upvalue reads the same before and after. |
| StringTable.HashString | src/lstring.c:90-93 | The loop computes the hash of the contents. |
| StringTable.HashExamples | src/lstring.c:90-94 | The hash values of "", "a" and "ab". |
| StringTable.HashSamples | src/lstring.c:90-94 | The hash value of a long string depends on every (length/32 + 1)th character only, from the last one on. |
| StringTable.PushBucket | src/lstring.c:68-77 | Chaining in front keeps all buckets linked and every string in its bucket. |
| StringTable.CutBucket | src/lgc.c:931-943 | Unlinking keeps all buckets linked and every other string in its bucket. |
| StringTable.MoveStep | src/lstring.c:32-45 | Moving one string to the new table leaves the rest of its old chain walkable. |
| StringTable.Table.constructor | src/lstring.c:22-51 | An empty table is valid. |
| StringTable.Table.Search | src/lstring.c:94-104 | The string with these contents, if there is one anywhere in the table. |
| StringTable.Table.Intern | src/lstring.c:88-106 | The one string with the contents, made only if there was none; a dead one is revived. |
| StringTable.Table.NewLStr | src/lstring.c:53-85 | The new string, and a table of twice the size exactly if it was crowded, not being swept and not too large. |
| StringTable.Table.Resize | src/lstring.c:22-51 | Rehashing loses and changes no string; nothing happens during the string sweep. |
| StringTable.Table.FreeString | src/lgc.c:931-943 | The released string, and no other, is gone. |
| StringTable.Table.CheckSizes | src/lgc.c:531-537 | The table shrinks by half exactly when it is mostly empty. |
| StringTable.Table.PointerIsContent | src/lstring.c:88-106 | Two strings of the table are the same object if and only if their contents are equal. |

## Left out

- GcHeap.GlobalState.BarrierBack: stops where the program would write to a head of `grayagain` that is gone (GcStale.WriteToFreed); outside the mark phase it knows the head of that list, not the links behind it.
- GcMachine.Next: goes on after such a barrier as if the write had destroyed nothing.
- GcHeap.GlobalState.FreeObject: the memory of an object is returned when it is unlinked, not after its members have been dropped.
- GcMachine.Next: weak tables and finalizers are not steps of the machine; luaC_separateudata only leaves unmarked userdata without a finalizer to the sweep.
- GcMark.PropagateMark: no weak tables and no finalizers, as in GcMachine.Next.
- GcMark.PropagateMarkKeeps: no weak tables and no finalizers, as in GcMachine.Next.
- GcAtomic.PropagateMarkInv: no weak tables and no finalizers, as in GcMachine.Next.
- GcCycle.AtomicInv: no weak tables and no finalizers, as in GcMachine.Next.
- GcMachine.SingleStepInv: no weak tables and no finalizers, as in GcMachine.Next.
- GcSafety.MarkPhase: no weak tables and no finalizers, as in GcMachine.Next.
- GcFull.CyclePrecise: no weak tables and no finalizers, as in GcMachine.Next.
- GcFull.FullGcExact: no weak tables and no finalizers, as in GcMachine.Next.
- GcHeap.GlobalState.Propagate1: no weak tables and no finalizers, as in GcMachine.Next.
- GcHeap.GlobalState.AtomicStep: no weak tables and no finalizers, as in GcMachine.Next.
- GcHeap.GlobalState.Singlestep: no weak tables and no finalizers, as in GcMachine.Next.
- GcHeap.GlobalState.FullCollect: no weak tables and no finalizers, as in GcMachine.Next.
- GcMachine.Next: only the main thread has open upvalues, and threads are never released; the code drops the counts of a thread's stack before it closes the thread's upvalues.
- GcAtomic.RemarkUpvals: open upvalues of the main thread only; Upvals models the lists of all threads and the ring that joins them.
- GcFound.FindUpvalInv: open upvalues of the main thread only; Upvals models the lists of all threads and the ring that joins them.
- GcFound.CloseUpvalInv: open upvalues of the main thread only; Upvals models the lists of all threads and the ring that joins them.
- GcHeap.GlobalState.SweepOpenList: open upvalues of the main thread only; Upvals models the lists of all threads and the ring that joins them.
- GcHeap.GlobalState.RemarkUpvalues: open upvalues of the main thread only; Upvals models the lists of all threads and the ring that joins them.
- GcMachine.Next: clearing dead keys and the unused part of a stack, which the program does inside a traversal, are ordinary stores.
- GcMachine.Next: a slot 0 of the main thread stands for its table of globals; stacks do not grow or shrink; only the main thread and strings can be fixed, and no step fixes a string (luaS_fix), which is why GcEffects.RunFullGc need not except any.
- GcHeap.GlobalState.MarkRoots: the phase is set before the roots are marked, not after.
- GcFound.NewStringInv: the string table keeps its size here, and the link fields of strings are in StringTable, which models its growth.
- Pacing: thresholds, `gcdept`, `estimate`, and all profiling counters.
- Tables.Table.RemoveEntry: asks that no other live key of the table has the address of the key that dies, which holds as long as live keys are different objects.
- Tables.Table.ResizeArray: only grows the array part, as OP_SETLIST uses it.
- Tables.Table.NewKey: counts of keys and the barrier of the key are not part of the table model; numbers that are not integers are opaque, so NaN and -0 do not occur.
- Courses.Exact: says nothing about an expression one of whose comparisons has got a wrong operand; that one may still come out right.
- CodeGen.RightInContext: the same.
- CodeGen.FuncState.Discharge2Reg: the target is the first free register, as in all expressions; assignments to locals have other targets.
- CodeGen.FuncState.Exp2Reg: the target is the first free register, as in CodeGen.FuncState.Discharge2Reg.
- CodeGen.FuncState.Compile: arithmetic, concatenation, calls, tables, globals, constant folding, line numbers, `luaK_nil` for several registers at once, the limits on jump distance, constants and registers (the last is a precondition).
- CodeGen.InContext: comparisons do not change registers; a metamethod that assigns to locals through upvalues is not part of the machine.
- Sort.SortTable: the order is a total function without side effects, strict and weak; elements are array positions and not table accesses.
- Match.MatchState.Match: the depth of the C stack; character classes are those of the C locale.
- StringFind.StrGsub: a table as replacement, and results of a function that are neither strings nor nil.
- Parser.LexState.ParseSimpleExp: suffixes of primary expressions (fields, indices, calls), which an operand token includes.
- Parser.LexState.ParseSubExpr: the limit on nesting, and what may follow a primary expression (fields, indices, calls), which an operand token includes; nothing but an operator or a closing bracket is read behind a bracket.
- Parser.LexState.ParseSubExpr: statements, variable resolution (`singlevaraux`) and the lexer.
- ChunkFormat.LoadInt: integers have four bytes and sizes eight, lowest byte first; other machines have other headers.
- ChunkFormat.LoadInt: numbers are their eight bytes, which ChunkLayout.ConstantExact reads as a 64-bit integer.
- PatternText.PartsRead: sets in which a range has an escape at its end, or in which `]`, `-` or `^` stand for themselves without one; Patterns.SetEndFirst and Match.MatchState.MatchBracketClass cover all sets.
- ChunkStream.LoadState.LoadFunction: a prototype is built as a value, not filled field by field; allocation does not fail.
- Upvals.State.Close: luaC_linkupval's recoloring is GcFound.CloseUpvalInv.
- The bytecode checker (`symbexec`), the API and auxiliary library, input and output, string.format, coroutines, and everything about errors but where they are raised.
