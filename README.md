# a2x core in Dafny

This project models the bookkeeping core of the a2x framework, a C game library built
around an Entity-Component-System (ECS) runtime driven once per frame by a stack of
application states.

**ECS runtime**
- The bit sets that record which components an entity has and which ones a system
  requires.
- The component registry and the system registry, including `a_system_run`, which hands
  a system's entities to its handler.
- The entity scheduler. It keeps every entity in exactly one lifecycle list. On each tick
  it drains the muted and removed queues, matches new entities against the systems'
  component masks and puts restored entities into the systems they match.

**State stack**
- Named states, a FIFO queue of push and pop requests, and the stack itself. Each state
  passes through its Init, Loop and Free stages.
- A latched exit flag.
- The per-frame `iteration`.

**Supporting cores**
- The old sentinel-based doubly linked list.
- The string and path helpers.
- The console's bounded line buffer and its show/hide state.
- The file-name comparator used to sort directory listings.
- The pixel-mode save/restore stack.

## How the model is organised

There is one module per C file:

| module | C file |
|---|---|
| `Bitfield` | `src/a2x_pack_bitfield.c` |
| `LinkedList` | `src/a2x_pack_list.c` |
| `Component` | `src/a2x_pack_ecs_component.c` |
| `System` | `src/a2x_pack_ecs_system.c`, except `a_system_run` |
| `Ecs` | `src/a2x_pack_ecs.c` and `a_system_run` |
| `State` | `src/a2x_pack_state.c` |
| `Str` | `src/a2x_pack_str.c` |
| `Console` | `src/a2x_pack_console.c` |
| `Dir` | `dirSort` in `src/a2x_pack_dir.c` |
| `Pixel` | `src/a2x_pack_pixel.c` |

`Wrappers` holds `Option` and the opaque `Handle` that stands for a C function pointer.

Global state and heap objects that the C code updates in place become classes. Their
methods carry `modifies` clauses:
- the chunk array of a bit set;
- the linked list's nodes;
- the two registries' tables, which are `null` before init;
- the scheduler's lists and entities (`Ecs.World`);
- the state manager;
- the console;
- the pixel state.

Each loop of a C function modelled as a method is a `while` loop with its invariants.
A few short scans are instead part of a specification or a precondition:
- the end-of-string scan of `a_str_getSuffixFirstFind` is a slice;
- the duplicate-state scan of `pending_handle` is the `CanHandle` precondition.

The scheduler and the state stack are also described by pure step functions on a value
`Snapshot` of the whole state: `Flushed`, `Ticked` and `Ran` in `Ecs`, and `Handled`
and `Iterated` in `State`. Each method ensures that its new state is the step function
applied to the old one. The properties the C code relies on are then lemmas about those
functions:
- every entity is in exactly one list;
- each system holds only entities that target it;
- the stack never holds a state twice;
- exit empties the stack.

Fatal errors (`A__FATAL`, `a_out__fatal`) and the debug-build checks of the `get`
functions are preconditions.

Lists of the newer list API are sequences. That API is called by the scheduler, the
state stack, the console and the pixel code, but is not part of this model:
- `a_list_push`, `a_list_peek` and `a_list_pop` act at the head;
- `a_list_addLast` appends at the tail.

The entity module is only declared (`src/a2x_pack_ecs_entity.p.h`). An entity is
therefore a record with the fields this code reads and writes. The list an entity's node
belongs to is a field `list`.

The linked list's `a_list_removeNode` does not decrement `items`.
`LinkedList.List.RemoveNode` keeps that behaviour: its contract leaves `items` unchanged.
`a_list_remove` unlinks through the `A_LIST_REMOVE` macro, which is taken to behave
the same way (see "## Left out").

## Model

| member | source | states |
|---|---|---|
| Bitfield.ChunkCount | src/a2x_pack_bitfield.c:39 | the chunk count is the fewest 64-bit chunks that hold the requested bits (a ceiling division) |
| Bitfield.ChunkCountAsWrittenOverflows | src/a2x_pack_bitfield.c:39 | with the 32-bit `unsigned` addition of the source, `UINT_MAX` bits give zero chunks, too few to hold them |
| Bitfield.ChunkCountAgrees | src/a2x_pack_bitfield.c:39 | below the wrap-around, the expression as written equals the intended chunk count |
| Bitfield.Zero | src/a2x_pack_bitfield.c:40 | a zero-filled set of n chunks has no bit set |
| Bitfield.WithBit | src/a2x_pack_bitfield.c:52-56 | after setting bit b, b is set and every other bit keeps its value |
| Bitfield.WithoutBit | src/a2x_pack_bitfield.c:58-62 | after clearing bit b, b is clear and every other bit keeps its value |
| Bitfield.CoversIff | src/a2x_pack_bitfield.c:77-86 | the chunk-wise `bits & mask == mask` test holds exactly when every bit set in the mask is set in the set |
| Bitfield.CoversZeroAndSelf | src/a2x_pack_bitfield.c:77-86 | an all-zero mask is covered by any set, and every set covers itself |
| Bitfield.ChunkCovers | src/a2x_pack_bitfield.c:80 | for one chunk, `x & m == m` holds exactly when every bit of m is a bit of x |
| Bitfield.Bitfield.constructor | src/a2x_pack_bitfield.c:33-45 | fewer than one bit is fatal; otherwise a fresh array of `ChunkCount(n)` chunks with every bit clear |
| Bitfield.Bitfield.Test | src/a2x_pack_bitfield.c:69-75 | testing a bit agrees with `testMask` against a mask that holds only that bit |
| Bitfield.Bitfield.Set | src/a2x_pack_bitfield.c:52-56 | the chunks become `WithBit` of the old ones, and the bit then tests true |
| Bitfield.Bitfield.Clear | src/a2x_pack_bitfield.c:58-62 | the chunks become `WithoutBit` of the old ones, and the bit then tests false |
| Bitfield.Bitfield.Reset | src/a2x_pack_bitfield.c:64-67 | every chunk is zero and every bit tests false |
| Bitfield.Bitfield.TestMask | src/a2x_pack_bitfield.c:77-86 | the countdown over the mask's chunks answers `Covers(bits, mask)` |
| LinkedList.List.constructor | src/a2x_pack_list.c:22-41 | two linked sentinels, no elements and `items == 0` |
| LinkedList.List.IsEmpty | src/a2x_pack_list.c:243-246 | true exactly when the list holds no element |
| LinkedList.List.AddFirst | src/a2x_pack_list.c:84-98 | the contents become `[x] + s`, `items` grows by one, and the links stay well formed |
| LinkedList.List.AddLast | src/a2x_pack_list.c:100-114 | the contents become `s + [x]`, `items` grows by one, and the links stay well formed |
| LinkedList.List.RemoveNode | src/a2x_pack_list.c:176-186 | element k is unlinked, the rest keep their order, and `items` is left unchanged |
| LinkedList.List.RemoveFirst | src/a2x_pack_list.c:126-149 | an empty list gives NULL and is unchanged; otherwise the first element is dropped and returned (NULL when freed), and `items` shrinks by one |
| LinkedList.List.RemoveLast | src/a2x_pack_list.c:151-174 | the same at the tail |
| LinkedList.List.Remove | src/a2x_pack_list.c:116-124 | only the first occurrence of v is removed, and the rest keep their order |
| LinkedList.WithoutFirstCounts | src/a2x_pack_list.c:116-124 | removing the first occurrence drops exactly one copy when v occurs, and nothing otherwise |
| LinkedList.List.Empty | src/a2x_pack_list.c:63-82 | no elements remain, `items == 0`, and the sentinels are relinked |
| LinkedList.List.Get | src/a2x_pack_list.c:225-236 | element i for `0 <= i < size`, NULL for any other index |
| LinkedList.List.GetArray | src/a2x_pack_list.c:203-213 | a fresh array of `items` slots whose first slots hold the elements in list order |
| LinkedList.List.Reverse | src/a2x_pack_list.c:188-201 | the contents become their reverse, the sentinels swap roles, and the links stay well formed |
| LinkedList.ReversedTwice | src/a2x_pack_list.c:188-201 | reversing twice gives the contents back |
| Component.ComponentTable.constructor | src/a2x_pack_ecs_component.c:36 | before init there is no table and no registered id |
| Component.ComponentTable.Init | src/a2x_pack_ecs_component.c:36-47 | a fresh table of n slots, each undeclared (bit `UINT_MAX`, id "???"), and an empty id map |
| Component.ComponentTable.StringToIndex | src/a2x_pack_ecs_component.c:55-60 | -1 exactly for an unregistered id; otherwise the index of the declared slot that holds that id |
| Component.ComponentTable.Get | src/a2x_pack_ecs_component.c:62-82 | no table, an out-of-range index or an undeclared slot is fatal; otherwise the slot, whose bit is its index |
| Component.ComponentTable.New | src/a2x_pack_ecs_component.c:84-104 | before init, a declared slot or a registered id is fatal; otherwise the slot gets `headerSize + size`, the callbacks, the id and its index as bit, the id maps to that index, and no other slot changes |
| Component.ComponentTable.NewEx | src/a2x_pack_ecs_component.c:106-116 | as `New` with no plain init, then the data-driven callbacks and data size are stored |
| System.SystemTable.constructor | src/a2x_pack_ecs_system.c:27-28 | before init there is no table and the table length is zero |
| System.SystemTable.Init | src/a2x_pack_ecs_system.c:30-38 | a fresh table of n slots, none declared, so every system's mask is trivially as wide as the component table |
| System.SystemTable.Get | src/a2x_pack_ecs_system.c:50-69 | no table, an out-of-range index or an undeclared system is fatal; otherwise the slot |
| System.SystemTable.New | src/a2x_pack_ecs_system.c:71-88 | before init or for a declared slot it is fatal; otherwise the handler, comparator and flag are stored with an empty entity list and an all-clear mask of `ChunkCount` of the component table's length (fatal when that length is zero), no other slot changes, and every declared mask stays as wide as the component table |
| System.SystemTable.Add | src/a2x_pack_ecs_system.c:90-96 | with every declared mask as wide as the component table, exactly the component's bit is set in the system's mask (the bit always fits), no other slot changes, and the masks stay that wide |
| Ecs.World.constructor | src/a2x_pack_ecs.c:32-37 | every lifecycle list is empty, so every entity is trivially in exactly one list |
| Ecs.World.IsInList | src/a2x_pack_ecs.c:117-120 | true exactly when the entity's node is in that list; under the one-list invariant, exactly when the list holds the entity |
| Ecs.World.AddToList | src/a2x_pack_ecs.c:122-125 | the entity is appended to the list and its node points there |
| Ecs.World.MoveToList | src/a2x_pack_ecs.c:127-131 | the entity leaves its list and is appended to the target, it is in no other list, and the one-list invariant is kept |
| Ecs.MoveKeepsOneList | src/a2x_pack_ecs.c:127-131 | moving keeps every entity in exactly one list, and afterwards the moved entity is only in the target |
| Ecs.World.RemoveFromAllSystems | src/a2x_pack_ecs.c:136 | the entity leaves every system's list |
| Ecs.World.RemoveFromActiveSystems | src/a2x_pack_ecs_system.c:111 | the entity leaves every active-only system and is flagged as removed from them |
| Ecs.World.Flush | src/a2x_pack_ecs.c:133-153 | the new state is `Flushed` of the old one |
| Ecs.World.FlushMuted | src/a2x_pack_ecs.c:135-139 | after the muted-queue loop, the state is the flush's intermediate state with every muted entity processed |
| Ecs.World.FlushRemoved | src/a2x_pack_ecs.c:141-149 | after the removed-queue loop, the state is the flush's intermediate state with every removed entity processed |
| Ecs.World.RemoveOne | src/a2x_pack_ecs.c:142-148 | one removed entity leaves every system and goes to the free list when unreferenced, to limbo otherwise |
| Ecs.Flushed | src/a2x_pack_ecs.c:133-153 | both queues are empty afterwards, the new and restore lists are untouched, and the system table keeps its shape |
| Ecs.FlushKeepsValid | src/a2x_pack_ecs.c:133-153 | a flush keeps the scheduler consistent (one list per entity, sane matches, sane systems) and empties both queues |
| Ecs.FlushedQueues | src/a2x_pack_ecs.c:135-149 | every muted entity ends in the live list; every removed one ends in the free list if unreferenced, else in limbo; both are out of every system |
| Ecs.Matching | src/a2x_pack_ecs.c:80-89 | the systems a new entity records are exactly those whose mask its components cover and whose flag matches, in descending index order |
| Ecs.World.Matches | src/a2x_pack_ecs.c:80-90 | the countdown over the system table yields the active-only and the other matches |
| Ecs.World.MatchSystems | src/a2x_pack_ecs.c:80-90 | the entity's matching lists grow by exactly those matches |
| Ecs.World.MatchOne | src/a2x_pack_ecs.c:79-93 | one pass of the matching loop: the entity records its matches and is queued for restoring |
| Ecs.World.MatchNew | src/a2x_pack_ecs.c:79-93 | the matching loop over all new entities |
| Ecs.World.JoinSystems | src/a2x_pack_ecs.c:97-107 | the entity is appended to each system it targets: its active-only matches unless flagged, and always the rest |
| Ecs.World.RestoreOne | src/a2x_pack_ecs.c:96-110 | one pass of the restore loop: the entity joins its targets and moves to the live list |
| Ecs.World.RestoreAll | src/a2x_pack_ecs.c:96-110 | the restore loop over all restoring entities |
| Ecs.World.ClearLists | src/a2x_pack_ecs.c:112-114 | the new, restore and free lists are cleared and the freed entities dropped |
| Ecs.World.Tick | src/a2x_pack_ecs.c:74-115 | the new state is `Ticked` of the old one |
| Ecs.Ticked | src/a2x_pack_ecs.c:74-115 | a tick leaves the system table's shape unchanged |
| Ecs.TickKeepsValid | src/a2x_pack_ecs.c:74-115 | a tick keeps the scheduler consistent; afterwards the queues and the new, restore and free lists are empty, and every processed entity is in the live list |
| Ecs.TickJoinsNew | src/a2x_pack_ecs.c:79-110 | after a tick, a new entity is in system i exactly when its components cover i's mask, and i is not active-only or the entity is not flagged |
| Ecs.TickJoinsRestored | src/a2x_pack_ecs.c:96-110 | after a tick, an entity waiting to be restored is in exactly the systems it targets |
| Ecs.TickFrees | src/a2x_pack_ecs.c:112-114 | a tick frees exactly the entities already in the free list and the unreferenced removed ones |
| Ecs.Sort | src/a2x_pack_ecs_system.c:102-104 | sorting permutes the system's entities |
| Ecs.SortSorted | src/a2x_pack_ecs_system.c:102-104 | with an antisymmetric comparator, the sorted list is ordered by it |
| Ecs.RunOrder | src/a2x_pack_ecs_system.c:102-104 | the visiting order is a permutation of the system's entities |
| Ecs.Ran | src/a2x_pack_ecs_system.c:98-121 | a run keeps the system table's shape and the set of entities |
| Ecs.RunCalls | src/a2x_pack_ecs_system.c:106-118 | the handler sees each entity at most once: exactly the active ones for an active-only system, all of them (in comparator order when the comparator is antisymmetric) otherwise |
| Ecs.RunEvictsIdle | src/a2x_pack_ecs_system.c:106-113 | an inactive entity met by an active-only run is flagged and has left every active-only system after the run |
| Ecs.RunKeepsValid | src/a2x_pack_ecs_system.c:98-121 | a run keeps the scheduler consistent |
| Ecs.World.Run | src/a2x_pack_ecs_system.c:98-121 | the calls made are `Calls` of the old state, and the new state is `Ran` of the old one |
| Ecs.World.DispatchActive | src/a2x_pack_ecs_system.c:106-113 | the active entities go to the handler in order; the inactive ones are flagged and evicted from the active-only systems |
| Ecs.World.SetAside | src/a2x_pack_ecs_system.c:111 | one more inactive entity is flagged and evicted from the active-only systems |
| Ecs.World.DispatchAll | src/a2x_pack_ecs_system.c:114-118 | every entity goes to the handler, in list order |
| State.Pushed | src/a2x_pack_state.c:178-188 | while exiting nothing changes; otherwise a push of a registered state is queued; validity is kept |
| State.Popped | src/a2x_pack_state.c:190-200 | while exiting nothing changes; otherwise a pop is queued; validity is kept |
| State.PoppedUntil | src/a2x_pack_state.c:202-230 | while exiting nothing changes; otherwise one pop is queued per state above the first `name`, which must be on the stack |
| State.Replaced | src/a2x_pack_state.c:232-243 | while exiting nothing changes; otherwise a pop and then a push of `name` are queued |
| State.Exited | src/a2x_pack_state.c:245-263 | the exit flag is latched; the first call replaces the queue with one pop per live state (a running state that has run its Free stage is not counted); later calls change nothing |
| State.ExitLatches | src/a2x_pack_state.c:178-263 | exit is idempotent, and after it push, pop, popUntil and replace change nothing |
| State.Handled | src/a2x_pack_state.c:81-145 | exactly one queued request is consumed when there is one, and the queue is left alone otherwise |
| State.HandleSteps | src/a2x_pack_state.c:81-145 | a freed top state is removed first; then, with nothing queued, an Init top moves to Loop; a pop marks the top Free and leaves it on the stack; a push puts the state on top in Init; nothing else changes |
| State.HandleKeepsValid | src/a2x_pack_state.c:81-145 | `pending_handle` keeps the stack free of duplicates, with only the top possibly in Free |
| State.ExitEmptiesStack | src/a2x_pack_state.c:245-263 | from any valid stack, exit, followed by one `pending_handle` per live state and one more, empties the stack without a fatal error |
| State.ExitAsWrittenFromFreeIsFatal | src/a2x_pack_state.c:259-262 | with the code's count, exit called from the Free stage of the only stacked state queues a pop that `pending_handle` finds fatal |
| State.PopUntilUnwinds | src/a2x_pack_state.c:202-230 | popUntil with nothing queued leaves the stack unwinding by the number of states above `name` |
| State.PopUntilUncovers | src/a2x_pack_state.c:202-230 | popUntil, followed by the queued pops being handled and one more call, leaves `name` on top with the states above it destroyed |
| State.ReplaceSwapsTop | src/a2x_pack_state.c:232-243 | replace, followed by two `pending_handle` calls, puts `name` in place of the running state, in Init |
| State.Iterated | src/a2x_pack_state.c:265-304 | the stack is exactly what `pending_handle` left, and an empty stack ends the iteration with nothing else done |
| State.PendingStopsFrames | src/a2x_pack_state.c:276-289 | a request already queued stops the frame loop after its first logic frame |
| State.QuietFramesAllRun | src/a2x_pack_state.c:276-291 | with nothing queued and no frame asking for anything, every logic frame runs |
| State.IterationKeepsValid | src/a2x_pack_state.c:265-304 | an iteration keeps the stack well formed when the state function only asks for registered states |
| State.StateManager.constructor | src/a2x_pack_state.c:147-153 | nothing is registered, stacked or queued, and the program is not exiting |
| State.StateManager.New | src/a2x_pack_state.c:167-176 | the state is registered in Init, and nothing else changes |
| State.StateManager.PendingPush | src/a2x_pack_state.c:65-74 | pushing an unregistered name is fatal; otherwise the push is appended to the queue |
| State.StateManager.PendingPop | src/a2x_pack_state.c:76-79 | a pop is appended to the queue |
| State.StateManager.Push | src/a2x_pack_state.c:178-188 | the new state is `Pushed` of the old one |
| State.StateManager.Pop | src/a2x_pack_state.c:190-200 | the new state is `Popped` of the old one |
| State.StateManager.PopUntil | src/a2x_pack_state.c:202-230 | the new state is `PoppedUntil` of the old one; a missing name is fatal |
| State.StateManager.Replace | src/a2x_pack_state.c:232-243 | the new state is `Replaced` of the old one |
| State.StateManager.Exit | src/a2x_pack_state.c:245-263 | the new state is `Exited` of the old one, with the corrected count of pops |
| State.StateManager.PendingHandle | src/a2x_pack_state.c:81-145 | the new state is `Handled` of the old one; popping an empty stack and pushing a stacked state are fatal |
| State.StateManager.Iteration | src/a2x_pack_state.c:265-304 | returns false exactly when the stack is empty after `pending_handle`; the new state is `Iterated` of the old one |
| Str.Merge | src/a2x_pack_str.c:25-54 | the result is the concatenation of the parts, in order |
| Str.MergedSize | src/a2x_pack_str.c:32-34 | the first loop adds up the lengths of all parts |
| Str.CopyPart | src/a2x_pack_str.c:44-46 | one part is copied after what was written, which stays in place |
| Str.Dup | src/a2x_pack_str.c:56-65 | NULL stays NULL; anything else gives an equal string |
| Str.GetSub | src/a2x_pack_str.c:83-92 | the `End - Start` characters from `Start` |
| Str.GetPrefix | src/a2x_pack_str.c:94-97 | a prefix of the requested length |
| Str.GetSuffix | src/a2x_pack_str.c:99-103 | a suffix of the requested length |
| Str.FirstIndexOf | src/a2x_pack_str.c:105-114 | -1 exactly when the character is absent; otherwise the smallest index that holds it |
| Str.LastIndexOf | src/a2x_pack_str.c:116-125 | -1 exactly when the character is absent; otherwise the largest index that holds it |
| Str.GetFirstIndex | src/a2x_pack_str.c:105-114 | the forward scan answers `FirstIndexOf` |
| Str.GetLastIndex | src/a2x_pack_str.c:116-125 | the backward scan answers `LastIndexOf` |
| Str.StartsWith | src/a2x_pack_str.c:127-136 | true exactly when the prefix is a prefix of the string (the empty prefix included) |
| Str.EndsWith | src/a2x_pack_str.c:138-148 | true exactly when the string is some head followed by the suffix |
| Str.PrefixFirstFind | src/a2x_pack_str.c:150-159 | NULL exactly when the marker is absent; otherwise the text before the first marker |
| Str.PrefixLastFind | src/a2x_pack_str.c:161-170 | NULL exactly when the marker is absent; otherwise the text before the last marker |
| Str.SuffixFirstFind | src/a2x_pack_str.c:172-186 | NULL exactly when the marker is absent; otherwise the text after the first marker |
| Str.SuffixLastFind | src/a2x_pack_str.c:188-197 | NULL exactly when the marker is absent; otherwise the text after the last marker |
| Str.ExtractPath | src/a2x_pack_str.c:199-208 | "." when there is no '/'; otherwise the text before the last '/' |
| Str.ExtractFile | src/a2x_pack_str.c:210-219 | the text after the last '/', or the whole string; it holds no '/' |
| Str.ExtractName | src/a2x_pack_str.c:221-232 | the file part without its last '.' and what follows it |
| Str.PathRoundTrip | src/a2x_pack_str.c:199-219 | where there is a '/', the path, a '/' and the file part rebuild the string |
| Str.Trim | src/a2x_pack_str.c:67-81 | a middle slice with only whitespace cut on both sides, whose ends are not whitespace; all-whitespace or empty input gives "" |
| Str.SplitString | src/a2x_pack_str.c:234-273 | the pieces are `Split` of the string: the maximal runs of non-delimiter characters, left to right |
| Str.IsDelimiter | src/a2x_pack_str.c:242-257 | the scan of the delimiter string finds c exactly when c is a delimiter |
| Str.SplitPieces | src/a2x_pack_str.c:234-273 | every piece is non-empty and holds no delimiter |
| Str.SplitKeepsCharacters | src/a2x_pack_str.c:234-273 | the pieces joined are exactly the non-delimiter characters, in order |
| Console.Console.constructor | src/a2x_pack_console.c:50-52 | the console starts uninitialised with no lines |
| Console.Console.IsInitialized | src/a2x_pack_console.c:235-238 | true exactly in the full and visible states |
| Console.Console.Init | src/a2x_pack_console.c:178-183 | an empty buffer, a cap of `UINT_MAX` and the basic state, not yet initialised |
| Console.Console.Init2 | src/a2x_pack_console.c:185-219 | without video nothing changes; otherwise the cap becomes the screen height in lines less two, as `unsigned`, the oldest lines are dropped down to it, and the console is shown or hidden as configured |
| Console.Console.TrimToCap | src/a2x_pack_console.c:207-209 | the lines become the newest `cap` of them |
| Console.Trimmed | src/a2x_pack_console.c:207-209 | the newest lines: exactly `cap` of them when there are more, all of them otherwise |
| Console.ShowState | src/a2x_pack_console.c:240-247 | below the full state nothing changes; otherwise the state is visible exactly when asked to show |
| Console.Console.SetShow | src/a2x_pack_console.c:240-247 | the new state is `ShowState` of the old one; the lines are untouched |
| Console.ToggleState | src/a2x_pack_console.c:82-91 | a press flips full and visible; without a press, or below full, nothing changes |
| Console.ToggleTwice | src/a2x_pack_console.c:82-91 | two presses give back the state |
| Console.Console.Toggle | src/a2x_pack_console.c:82-91 | the new state is `ToggleState` of the old one |
| Console.Written | src/a2x_pack_console.c:255-267 | an overwrite replaces the newest line, or adds one to an empty buffer; otherwise the line is appended and the oldest dropped when over the cap |
| Console.WrittenWithinCap | src/a2x_pack_console.c:255-267 | writing keeps the buffer within the cap, and the new line is last unless a zero cap drops it |
| Console.OverwritesStayAtOneLine | src/a2x_pack_console.c:255-260 | overwriting writes never grow the buffer beyond one line |
| Console.Console.Write | src/a2x_pack_console.c:249-268 | nothing changes while invalid; otherwise the lines become `Written` of the old ones |
| Dir.FoldedPrefix | src/a2x_pack_dir.c:44-56 | the longest common prefix ignoring case |
| Dir.DirSort | src/a2x_pack_dir.c:36-67 | the cursor loop answers `DirOrder` of the two names |
| Dir.FirstFoldedDifference | src/a2x_pack_dir.c:44-56 | at the first position where the names differ ignoring case, the result is `tolower(a) - tolower(b)` there |
| Dir.CaseOnlyDifference | src/a2x_pack_dir.c:50-64 | names equal ignoring case and of equal length compare by their first case-only difference, `b - a`, so the lower-case name sorts first |
| Dir.DirOrderZeroIff | src/a2x_pack_dir.c:36-67 | only identical names compare equal |
| Dir.ShorterPrefix | src/a2x_pack_dir.c:62-66 | a name that is a proper prefix of the other ignoring case sorts first |
| Dir.DirOrderAntisymmetric | src/a2x_pack_dir.c:36-67 | swapping the names negates the result |
| Pixel.PixelState.Init | src/a2x_pack_pixel.c:25-29 | plain blend, a zeroed mode and an empty stack |
| Pixel.PixelState.Push | src/a2x_pack_pixel.c:40-46 | a copy of the mode goes on top of the stack |
| Pixel.PixelState.Pop | src/a2x_pack_pixel.c:48-61 | popping an empty stack is fatal; otherwise the top is removed and installed through `setBlend` and `setRGBA` |
| Pixel.RestoredIsSaved | src/a2x_pack_pixel.c:56-60 | a consistent saved mode comes back unchanged; any saved mode comes back with its blend, and consistent whenever its channels are bytes and the alpha maximum fits 32 bits |
| Pixel.PixelState.PushPop | src/a2x_pack_pixel.c:40-61 | a push followed by a pop leaves the stack as it was and, from a consistent mode, the mode too |
| Pixel.PixelState.SetBlend | src/a2x_pack_pixel.c:63-69 | only the blend changes |
| Pixel.ClampAlpha | src/a2x_pack_pixel.c:73 | the alpha is the smaller of the request and the maximum |
| Pixel.PixelState.SetAlpha | src/a2x_pack_pixel.c:71-74 | only the alpha changes, to the clamped value |
| Pixel.PixelState.SetRGB | src/a2x_pack_pixel.c:76-83 | the channels change and the pixel is rebuilt from them; blend and alpha stay |
| Pixel.WithRGBA | src/a2x_pack_pixel.c:85-93 | the channels, the clamped alpha and the rebuilt pixel; the blend stays |
| Pixel.PixelState.SetRGBA | src/a2x_pack_pixel.c:85-93 | the new mode is `WithRGBA` of the old one |
| Pixel.PixelState.SetPixel | src/a2x_pack_pixel.c:95-102 | the pixel is stored and the channels are read back from it; blend and alpha stay |

## Left out

- Freeing: `a_list_free`, the node and content freeing in `a_list_empty` and the remove operations, `a_bitfield_free`, and the `uninit` functions of every module (`a_ecs__uninit`, `a_system__uninit`, `a_component__uninit`, `a_state__uninit`, `a_console__uninit`, `a_pixel__uninit`). Memory is not modelled. A freed value is simply no longer reachable.
- LinkedList.List.Remove: `A_LIST_ITERATE` and `A_LIST_REMOVE` are not part of this model. The model takes `A_LIST_REMOVE(false)` to unlink the current node as `a_list_removeNode` does, without freeing the content or decrementing `items`. It takes the `break` to end the whole iteration, so only the first occurrence is removed.
- State.StateManager.PopUntil: the model takes the `break` inside `A_LIST_ITERATE` to end the whole scan, so `pops` counts the states above the first state called `name`.
- `a_list_first`, `a_list_last` and `a_list_size`: they forward to `a_list__first`, `a_list__last` and `a_list__size` in `a2x_pack_list.v.h`, which is not part of this model.
- The newer list API used by the other modules (`a_list_push`, `a_list_pop`, `a_list_peek`, `a_list_clear`, `a_list_sort`, one-argument `a_list_removeNode`) is not part of this model. Those lists are sequences.
- Ecs.Sort: `a_list_sort` is not part of this model. It is modelled as an insertion sort, so the model states the permutation, and the order only for an antisymmetric comparator. Which of several equal elements comes first is not claimed to match the real sort.
- The entity module (`a_entity__removeFromAllSystems`, `a_entity__removeFromActiveSystems`, `a_entity_activeGet`, the `references` count) is only declared. Eviction is the entity leaving each system's list. Activity is a field `active` of the entity record. The per-entity `systemNodes*` lists are not kept, because the model finds an entity in a system's list by value.
- Ecs.World.Run: the handler loop visits a snapshot of the sorted list. Whether `A_LIST_ITERATE` tolerates the current node being unlinked, when an inactive entity leaves the system being iterated, is not modelled.
- What a system handler, a state function or a component callback does is not modelled. Handlers and callbacks are opaque handles. A state function's only effect kept is the requests it queues.
- Ecs.World.Tick: the scheduler needs the system table to exist, and the component masks of the systems to be no wider than the new entities' component bits. These are `a_system__get`'s debug checks and what `a_bitfield_testMask` reads.
- Ecs.World.JoinSystems: the two inner loops of the restore pass (active-only matches, then the rest) are one loop over their concatenation.
- The ECS collections (`a_ecs_collectionGet`, `a_ecs_collectionSet`, `a_ecs__collectionPush`, `a_ecs__collectionPop` called by `pending_handle`), `a_ecs__isDeleting` and `a_ecs_init` are not modelled. The template module they reach is not part of this model.
- Component instance headers and template data lookup (`getHeader`, `a_component_dataGet`, `a_component_entityGet`) are not modelled. The per-instance header size is a parameter of `Component.ComponentTable`.
- The `g_states` string hash: registering the same name twice is a precondition violation in `State.StateManager.New`, because the hash's duplicate behaviour is not part of this model.
- State.StateManager.Iteration: the per-frame collaborators are not modelled. These are `a_fps__tick` (its answers are the length of the `frames` parameter), the timer, input, sound, screen, screenshot and console ticks, `a_ecs__tick`, and the drawing calls. A call of `a_state_exit` from a state function is not modelled either.
- `a_state__run` and the Emscripten main loop are not modelled. They call `iteration` until it returns false.
- `pending_handle`'s logging (`a_out__statev`) is not modelled, and neither is the unreachable NULL check at `src/a2x_pack_state.c:129-131`.
- The console's drawing (`screenCallback`), its sprites and its toggle button object are not modelled. `a_console__init2`'s settings, screen height and line height are parameters.
- `dirReal`, `dirEmbedded` and the rest of `src/a2x_pack_dir.c` are filesystem I/O and are not modelled. The names `dirSort` compares are sequences of signed `char` values. `tolower` is the "C" locale's, and it is applied to negative values as the identity.
- Pixel: `a_pixel_make`, `a_pixel_red`, `a_pixel_green`, `a_pixel_blue` and `A_PIXEL_ALPHA_MAX` are not part of this model. They are parameters of `Pixel.PixelState.Init`. The blend routines refreshed by `a_pixel_setBlend` are not modelled.
- Str: results are fresh values. Allocation, and the `size_t` and `int` widths of lengths and indices, are not modelled. Strings are sequences of characters with no NUL.

## Findings

| source | as written | input that shows it | evidently intended | confidence | as-written member | corrected member |
|---|---|---|---|---|---|---|
| src/a2x_pack_bitfield.c:39 | `(NumBits + A__BITS_PER_CHUNK - 1) / A__BITS_PER_CHUNK` is computed in 32-bit `unsigned` and wraps for NumBits above `UINT_MAX - 63` | `NumBits == UINT_MAX` gives 0 chunks, so `set` and `test` index past the allocation | the fewest chunks that hold NumBits bits | not executed | Bitfield.ChunkCountAsWrittenOverflows | Bitfield.ChunkCount |
| src/a2x_pack_state.c:259-262 | `a_state_exit` queues one pop per stacked state, including a running state that has already run its Free stage and is destroyed by the next `pending_handle` | a state's Free-stage function calls `a_state_exit` while it is the only stacked state: the queued pop then finds an empty stack and `pending_handle` stops with "Pop state: stack is empty" | one pop per state that is not already being destroyed | not executed | State.ExitAsWrittenFromFreeIsFatal | State.Exited |
