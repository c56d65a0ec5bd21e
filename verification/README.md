# Verified model of the Berry runtime core and the Uptane client

This Dafny project models the memory and data structure core of the Berry scripting runtime that
aktualino embeds, and aktualino's own Uptane client, and proves what each of them is for.
`dafny verify dfyconfig.toml` verifies the whole project.

One file models one component.

- `BerryMap.dfy`: the hash map. A chained scatter table in one slot array, with left-over links after a
  removal, refines a mathematical map.
- `Collector.dfy`: the mark and sweep collector. Marking is reachability, sweeping keeps exactly the rest,
  on two intrusive lists.
- `PoolAllocator.dfy`: the small-block allocator in front of malloc. Live blocks never overlap, contents
  are kept, and the byte count is exact.
- `StringTable.dfy` and `ShortStrings.dfy`: the interned strings and their comparison. The bucket array doubles
  and halves in place.
- `Decoder.dfy` and `JumpLists.dfy`: instruction fields, and jump lists threaded through them.
- `Bytecode.dfy`: saving and loading function prototypes, and linking their globals on another machine.
- `Base64.dfy` and `BitFields.dfy`: byte buffer codecs (section 4 of RFC 4648; bit fields).
- `Json.dfy` and `CanonicalJson.dfy`: parsed JSON, and the canonical text that is signed.
- `Dates.dfy` and `Uptane.dfy`: the calendar, role verification, target selection and the image
  repository's hash chain (section 5.3 of the TUF specification, section 5.4.4.2 of the Uptane Standard 2.0).
- `Trust.dfy`: chains of roots, accepted evidence of both repositories, and the history of installations.
- `Device.dfy`: root rotation, stored versions, the two-repository check and the staged install across
  resets.
- `FirstUpdate.dfy`: one device with concrete files, from its first poll to the confirmed update.
- `Bits.dfy` and `Wrappers.dfy`: bitwise arithmetic on integers, and the option type.

Code that changes things in place is a class whose methods are proved against functions on values; the
properties are proved about these functions. In most classes one ghost field `view` (or `live`, `trusted`)
holds the abstract state, and `Shape` or `Valid` ties it to the real fields. `Device.power` counts the
writes to persistent storage that are left before the power fails: a write without power changes nothing
and ends the execution, so the contracts hold for a failure after any write.

What such a function means is stated a second time without it: by field (`Collector.EdgesByField`), by JSON
member (`Uptane.AcceptedIff`), by byte (`Bytecode.LongBytes`, `CanonicalJson.LessIff`), or by example
(`CanonicalJson.SampleText`, `Bytecode.SampleProto`, `FirstUpdate.FirstUpdate`).

What the model takes as parameters: the hash function of the map and of the string table, the system's
malloc and realloc (any that never hand out memory twice), the objects a collection inside the allocator
frees, the `%.17g` format, and in `Uptane.Library` the JSON parser, `sscanf` on a timestamp, the signature
check, SHA-256 and hexadecimal decoding. The servers, the downloads and the clock are inputs. In
`Bytecode` the string table is any function that answers a short string with one its comparison takes for
equal, at each point of the file; statements about loading hold for all of them.

Where the code differs from its documentation or from the standards, the model follows the code:

- The comment in `akt_uptane.c` says that distinct key ids are counted. The loop counts list entries, so a
  key id listed twice counts twice (`Uptane.CountExact`, `Uptane.OneSignerMeetsTwo`).
- A root fetched as number i is accepted with any version of at least i, where section 5.3 of the TUF
  specification asks for exactly i. Inside one walk the stored version can therefore go down
  (`Trust.NextLinkCanLower`); from the start of a walk to its end it cannot (`Device.Device.WalkRoot`).
- Roots are read back into a buffer of 8192 bytes but stored at any size. A larger one that was adopted
  cannot be read again, and the next start puts the embedded root in its place, whatever its version. The
  version goes down exactly when the embedded root is older (`Device.Device.InitAnchor`,
  `Device.LargeRootLost`); if every root fits the buffer, it never does (`Device.Device.Life`).
- The Director's timestamp, snapshot and targets are each accepted by its root but not tied together by hash
  and version, as the full verification of section 5.4.4.2 of the Uptane Standard asks
  (`Trust.UnpinnedSnapshot`).
- With named globals the saver of bytecode is to stop at an access to a global. It compares the whole word with
  the opcode number, so it never does (`Bytecode.GuardRightIff`).
- The loader of bytecode compares the number of builtins only for "not more than here". With more builtins
  here, or with others, indices of saved globals can count as builtins and refer to something else
  (`Bytecode.LinkedIffSameBuiltins`).
- Dates that do not exist are accepted (`Dates.NoSuchDateAccepted`); exactly they are out of order
  (`Dates.InOrderIffValid`).
- The distance test for 32 byte lines uses the line count of the other pool; no block is ever found by it
  in a wrong pool (`PoolAllocator.OffsetFinds`).

## Model

| member | source | states |
|---|---|---|
| `BerryMap.ScatterMap.Insert` | components/aktualino_berry/berry/src/be_map.c:254-269 | Inserting keeps the slot array a representation of the mathematical map, now with the key bound to the value; without a value an existing entry stays as it is. Every key sits once on the acyclic chain from its main slot, and every slot above the cursor is occupied, before and after. The table grows exactly when a new key comes to a full one. |
| `BerryMap.ScatterMap.Entries` | components/aktualino_berry/berry/src/be_map.c:178-192 | A slot with a key holds an entry of the map, key and value, and no other slot holds that key. |
| `BerryMap.ScatterMap.HasSlot` | components/aktualino_berry/berry/src/be_map.c:178-192 | Each entry of the map has such a slot. |
| `BerryMap.ScatterMap.Reached` | components/aktualino_berry/berry/src/be_map.c:22-23 | From the slot hash % size, the links lead to every entry with that hash slot, over occupied slots only. |
| `BerryMap.ScatterMap.Entry` | components/aktualino_berry/berry/src/be_map.c:254-269 | The slot handed out holds the key, whether it was found, placed, or placed after growing; an entry that was there is untouched. |
| `BerryMap.ScatterMap.Place` | components/aktualino_berry/berry/src/be_map.c:151-176 | A new key always finds a place while fewer entries than slots are in use, by filling its main slot, by linking behind it, or by moving a foreign entry away; all other entries keep their values. |
| `BerryMap.ScatterMap.NextFree` | components/aktualino_berry/berry/src/be_map.c:139-149 | The descending cursor finds a vacant slot if and only if there is one. |
| `BerryMap.SomeVacant` | components/aktualino_berry/berry/src/be_map.c:139-149 | A table with fewer entries than slots has a vacant slot, so the search above cannot fail. |
| `BerryMap.ScatterMap.FindPrev` | components/aktualino_berry/berry/src/be_map.c:125-137 | The slot in front of a given one on a chain is found exactly when the given one is on the chain behind its head. |
| `BerryMap.ScatterMap.Find` | components/aktualino_berry/berry/src/be_map.c:178-192 | Walking the chain finds the slot of a key, which holds the key's value in the map, if and only if the map has the key. |
| `BerryMap.KeyOnChain` | components/aktualino_berry/berry/src/be_map.c:178-192 | A key of the map is on the chain that starts at its own main slot, which is all a lookup visits. |
| `BerryMap.ScatterMap.Resize` | components/aktualino_berry/berry/src/be_map.c:194-224 | Growing or shrinking rehashes every entry into a new array and changes nothing in the map; a size below the count is refused. |
| `BerryMap.ScatterMap.Remove` | components/aktualino_berry/berry/src/be_map.c:271-306 | Removing terminates, reports whether the key was there, and takes out that key alone, also when the walk starts at a vacant slot that still has an old link. |
| `BerryMap.ScatterMap.FindBefore` | components/aktualino_berry/berry/src/be_map.c:280-296 | Behind a vacant main slot the walk follows left-over links, each to a live slot or to one vacated later, so it ends; it finds the key exactly when the map has it. |
| `BerryMap.StaleAfterVacate` | components/aktualino_berry/berry/src/be_map.c:296-305 | Vacating a slot keeps the order that makes left-over links acyclic. |
| `BerryMap.StaleAfterFill` | components/aktualino_berry/berry/src/be_map.c:151-176 | So does filling a vacant slot. |
| `BerryMap.ScatterMap.Next` | components/aktualino_berry/berry/src/be_map.c:332-340 | The iterator goes to the next slot with a key; all slots in between have none. |
| `BerryMap.VisitsEachEntryOnce` | components/aktualino_berry/berry/src/be_map.c:332-340 | A whole iteration delivers each entry of the map exactly once and nothing else. |
| `BerryMap.ScatterMap.Compact` | components/aktualino_berry/berry/src/be_map.c:347-353 | Compaction leaves the map as it is, in as many slots as it has entries (at least one). |
| `BerryMap.ScatterMap.constructor` | components/aktualino_berry/berry/src/be_map.c:226-240 | A new map is empty, with two slots. |
| `Collector.Vm.Collect` | components/aktualino_berry/berry/src/be_gc.c:540-578 | A collection keeps exactly the const objects and those reachable from the roots and the fixed objects, in their old order on the object list; all survivors are white and refer to nothing that was freed, so the next collection starts from the same invariant. A halted collector changes nothing. `Collector.LiveIff`, `Collector.EdgesByField` and `Collector.RootsByField` say what reachable means, `Collector.Vm.Held` and `Collector.Vm.RootsHeld` what survives, in terms of the fields. |
| `Collector.LiveIff` | components/aktualino_berry/berry/src/be_gc.c:430-452 | Exactly those objects stay that are const or at the end of a path of objects that are not const, from a root on, each held by the one before. |
| `Collector.EdgesByField` | components/aktualino_berry/berry/src/be_gc.c:159-292 | What an object holds, by type and field: the items of a list, keys and values of a map, class, super and variables of an instance, name, members and super of a class, constants, nested prototypes and names of a prototype, the prototype of a closure and the values of its upvalues in use, the table and own name of a module, and nothing else. |
| `Collector.RootsByField` | components/aktualino_berry/berry/src/be_gc.c:368-428 | What a collection starts from, by field: module tables, native class table, hook, globals, builtins, the stack below its top, the trace stack and the fixed objects, and nothing else. |
| `Collector.Vm.Held` | components/aktualino_berry/berry/src/be_gc.c:540-578 | After a collection every object a surviving list, map, instance, class, prototype, closure or module holds has survived too. |
| `Collector.Vm.RootsHeld` | components/aktualino_berry/berry/src/be_gc.c:368-418 | So has everything the machine itself refers to. |
| `Collector.Vm.MarkUnscanned` | components/aktualino_berry/berry/src/be_gc.c:430-452 | The loop over the gray list ends, and then an object is dark if and only if it is reachable. |
| `Collector.Vm.ScanHead` | components/aktualino_berry/berry/src/be_gc.c:430-452 | Each turn makes one more object dark and keeps the marking invariant. |
| `Collector.ScanKeeps` | components/aktualino_berry/berry/src/be_gc.c:430-452 | Scanning one object keeps: each gray object is on the list once, none of them is dark, everything seen is reachable, and what a dark object refers to has been seen. |
| `Collector.MarkedIsReachable` | components/aktualino_berry/berry/src/be_gc.c:430-452 | With no gray object left, the dark objects are exactly the reachable ones. |
| `Collector.Premarked` | components/aktualino_berry/berry/src/be_gc.c:368-428 | Marking the roots establishes the marking invariant. |
| `Collector.Vm.Premark` | components/aktualino_berry/berry/src/be_gc.c:368-428 | All root groups are marked in order, and the stack above its top is cleared. |
| `Collector.Vm.PremarkInternal` | components/aktualino_berry/berry/src/be_gc.c:368-378 | The module tables, the native class table and the debug hook are marked. |
| `Collector.Vm.PremarkStack` | components/aktualino_berry/berry/src/be_gc.c:397-409 | Exactly the values below the top of the stack are marked; those above become nil. |
| `Collector.Vm.PremarkFixed` | components/aktualino_berry/berry/src/be_gc.c:420-428 | Walking the object list marks exactly the fixed objects. |
| `Collector.Vm.MarkGray` | components/aktualino_berry/berry/src/be_gc.c:138-157 | A white, non-const object becomes dark if it has no references and otherwise heads the gray list; any other object is left alone. |
| `Collector.Vm.MarkMap` | components/aktualino_berry/berry/src/be_gc.c:166-182 | Every key and value of a map that is an object is marked, after the map has left the gray list. |
| `Collector.Vm.MarkList` | components/aktualino_berry/berry/src/be_gc.c:184-195 | Every item of a list that is an object is marked, after the list has left the gray list (`Collector.EdgesByField`). |
| `Collector.Vm.MarkProto` | components/aktualino_berry/berry/src/be_gc.c:197-223 | Constants and nested prototypes are marked, names become dark directly. |
| `Collector.Vm.MarkClosure` | components/aktualino_berry/berry/src/be_gc.c:225-239 | The values of upvalues in use and the prototype are marked. |
| `Collector.Vm.MarkNtvClos` | components/aktualino_berry/berry/src/be_gc.c:241-254 | The values of upvalues in use are marked. |
| `Collector.Vm.MarkClass` | components/aktualino_berry/berry/src/be_gc.c:256-265 | Name, members and super class are marked. |
| `Collector.Vm.MarkInstance` | components/aktualino_berry/berry/src/be_gc.c:267-280 | Class, super instance and variables are marked. |
| `Collector.Vm.MarkModule` | components/aktualino_berry/berry/src/be_gc.c:282-292 | The table is marked, and the name when the module has its own. |
| `Collector.Vm.DeleteWhite` | components/aktualino_berry/berry/src/be_gc.c:489-510 | The sweep takes exactly the white objects off the intrusive list and makes the others white. |
| `Collector.SweepDone` | components/aktualino_berry/berry/src/be_gc.c:489-510 | After it the object list is the old one without the unmarked objects, and nothing is marked. |
| `Collector.CollectAgain` | components/aktualino_berry/berry/src/be_gc.c:540-578 | A second collection with the same roots frees nothing. |
| `Collector.Vm.NewObject` | components/aktualino_berry/berry/src/be_gc.c:84-93 | A new object heads the list; a collection before that frees no reachable object. |
| `Collector.Vm.Store` | components/aktualino_berry/berry/src/be_list.c:67-81 | Changing what an object refers to, as appending to a list does, within the heap and the object's type, keeps the invariant between collections. |
| `Collector.Vm.constructor` | components/aktualino_berry/berry/src/be_gc.c:39-44 | A new machine has no objects and satisfies the invariant between collections. |
| `PoolAllocator.Allocator.Realloc` | components/aktualino_berry/berry/src/be_mem.c:50-121 | Allocating, freeing and resizing, with one collection and retry on failure: the live blocks are the old ones without what was collected, the block has the new size, the common prefix of its contents is kept, all other blocks keep theirs, and the bytes in use equal the start value plus the sizes of all live blocks. A collection takes place, and failure is possible, only if no pool of the size class has a free line and the system has no memory for a new pool, or for a large block none for it; after a failure this is still so. Freeing, and resizing within a line, never fail and never collect. |
| `PoolAllocator.Allocator.Attempt` | components/aktualino_berry/berry/src/be_mem.c:58-101 | One round either does all of this or changes nothing; it fails exactly when the memory it needs is refused. |
| `PoolAllocator.Allocator.Resize` | components/aktualino_berry/berry/src/be_mem.c:72-98 | A block that stays in its size class stays where it is; otherwise its prefix moves along, between the pools and the system. |
| `PoolAllocator.LiveApart` | components/aktualino_berry/berry/src/be_mem.c:141-227 | No two live blocks overlap, whichever of the two pools or the system they come from. |
| `PoolAllocator.BlockRegion` | components/aktualino_berry/berry/src/be_mem.c:141-227 | A small block is one line of a pool of its size class, a large one a region of its own. |
| `PoolAllocator.Allocator.MallocFromPool` | components/aktualino_berry/berry/src/be_mem.c:160-227 | A block handed out is at an address no live block has. None is handed out exactly for zero bytes, or if no pool of the size class has a free line and the system refuses a pool, or refuses the large block. |
| `PoolAllocator.Allocator.MallocLine` | components/aktualino_berry/berry/src/be_mem.c:160-227 | The lowest free line of the first pool with one is handed out and the system is not asked; only if there is none, a pool of 504 or 488 bytes is taken and its first line is handed out. |
| `PoolAllocator.TakeLine` | components/aktualino_berry/berry/src/be_mem.c:162-179 | The first pool with a free line and its lowest free line are taken. |
| `PoolAllocator.LineTaken` | components/aktualino_berry/berry/src/be_mem.c:162-183 | Clearing a free bit adds exactly that line to the live blocks. |
| `PoolAllocator.PoolAdded` | components/aktualino_berry/berry/src/be_mem.c:184-192 | A new pool adds exactly its first line. |
| `PoolAllocator.Allocator.FreeFromPool` | components/aktualino_berry/berry/src/be_mem.c:229-264 | Freeing takes exactly that block out of the live ones. |
| `PoolAllocator.FindLine` | components/aktualino_berry/berry/src/be_mem.c:229-264 | The search by distance stops at the pool that owns the line, at the line's own bit. |
| `PoolAllocator.OffsetFinds` | components/aktualino_berry/berry/src/be_mem.c:233-256 | The distance test is passed by the owning pool only, although for 32 byte lines it allows one line more than a pool has. |
| `PoolAllocator.LineReturned` | components/aktualino_berry/berry/src/be_mem.c:229-264 | Setting the bit removes exactly that line from the live blocks. |
| `PoolAllocator.Allocator.MemoryPools` | components/aktualino_berry/berry/src/be_mem.c:266-295 | Exactly the pools without a line in use are unlinked, and no live block is lost. |
| `PoolAllocator.InUseIff` | components/aktualino_berry/berry/src/be_mem.c:266-295 | The pools that stay are those with a bit that is not set. |
| `PoolAllocator.PoolDropped` | components/aktualino_berry/berry/src/be_mem.c:266-295 | Giving back such a pool keeps the bookkeeping. |
| `PoolAllocator.Allocator.PoolsInfo` | components/aktualino_berry/berry/src/be_mem.c:338-357 | The reported used slots are as many as there are live blocks of at most 32 bytes, and the reported total is 31 and 15 for each pool. |
| `PoolAllocator.Allocator.Collect` | components/aktualino_berry/berry/src/be_mem.c:107-113 | A collection frees the garbage and keeps the count of bytes in use exact. |
| `StringTable.Table.Resize` | components/aktualino_berry/berry/src/be_string.c:75-105 | Doubling or halving in place keeps every string exactly once, in bucket hash & (size-1). |
| `StringTable.Table.RehashBucket` | components/aktualino_berry/berry/src/be_string.c:85-98 | Rehashing one bucket in place moves its strings to where they belong and disturbs no bucket still to be rehashed. |
| `StringTable.MoveAllowed` | components/aktualino_berry/berry/src/be_string.c:85-98 | A string of an old bucket can only move to the same bucket or out of the range still to be rehashed. |
| `StringTable.Shortened` | components/aktualino_berry/berry/src/be_string.c:99-104 | After halving, the buckets that are cut off are empty. |
| `StringTable.Table.Intern` | components/aktualino_berry/berry/src/be_string.c:178-205 | A name without an inner NUL is interned once: the object that has it is returned if there is one, otherwise a new one is added, and nothing else changes. The table doubles exactly when it has more than four strings for each bucket. |
| `StringTable.Table.InItsBucket` | components/aktualino_berry/berry/src/be_string.c:178-186 | Every string sits in bucket hash % size. |
| `ShortStrings.StrnEqIff` | components/aktualino_berry/berry/src/be_string.c:184-195 | The comparison sees exactly the bytes with no NUL in front of them. |
| `StringTable.Table.Lookup` | components/aktualino_berry/berry/src/be_string.c:184-195 | The search of one bucket misses no string with these characters. |
| `ShortStrings.ComparisonExact` | components/aktualino_berry/berry/src/be_string.c:184-195 | The comparison tells names of one length apart exactly if and only if the name has no NUL before its last byte. |
| `StringTable.Table.Sweep` | components/aktualino_berry/berry/src/be_string.c:239-265 | Exactly the marked and the fixed strings stay, all white again; the table is halved exactly when it has less than one string for four buckets and more than eight buckets; the count stays exact. |
| `StringTable.Table.SweepBucket` | components/aktualino_berry/berry/src/be_string.c:246-260 | One bucket keeps its live strings in their order. |
| `StringTable.SweptOut` | components/aktualino_berry/berry/src/be_string.c:250-256 | Unlinking one string by its predecessor takes out that string alone. |
| `StringTable.Table.constructor` | components/aktualino_berry/berry/src/be_string.c:123-132 | A new table has eight empty buckets and satisfies the invariant. |
| `JumpLists.FuncInfo.ConJump` | components/aktualino_berry/berry/src/be_code.c:209-223 | Joining two disjoint lists gives their concatenation; only the offset of the last jump of the first list changes. |
| `JumpLists.FuncInfo.PatchListAux` | components/aktualino_berry/berry/src/be_code.c:163-174 | Patching terminates although it overwrites the links it follows. |
| `JumpLists.PatchedAt` | components/aktualino_berry/berry/src/be_code.c:163-174 | Each listed jump with opcode 29 (JMPT) or 30 (JMPF) goes to the default target and every other listed jump to the value target, in terms of the instruction word, exactly when the offset is within -131071..131072; no opcode, register or other instruction changes. |
| `JumpLists.FuncInfo.PatchList` | components/aktualino_berry/berry/src/be_code.c:225-237 | Patching a list sends all its jumps to the one destination, the current position included. |
| `JumpLists.FuncInfo.AppendJump` | components/aktualino_berry/berry/src/be_code.c:176-186 | A new jump is a list of its own, and the code before it is unchanged. |
| `JumpLists.FuncInfo.GetJump` | components/aktualino_berry/berry/src/be_code.c:156-161 | The next element of a list, or none at the end marker. |
| `JumpLists.Acyclic` | components/aktualino_berry/berry/src/be_code.c:156-174 | A jump list never returns to an instruction it has passed. |
| `JumpLists.Joined` | components/aktualino_berry/berry/src/be_code.c:209-223 | Linking the end of one list to another list gives a list of both. |
| `Decoder.WithSBxFields` | components/aktualino_berry/berry/src/be_decoder.h:53-66 | Storing an offset keeps opcode and register, and the offset is read back if and only if it lies in -IsBx_MAX..IsBx_MAX+1. |
| `Decoder.Fields` | components/aktualino_berry/berry/src/be_decoder.h:28-61 | Opcode, register and offset as arithmetic on the instruction word: the upper six bits, the next eight, and the lower eighteen less 131071. |
| `Bytecode.FileTrip` | components/aktualino_berry/berry/src/be_bytecode.c:284-295 | A file loads on a machine with at least as many builtins, whatever globals and strings that machine has: the globals are declared, the same prototype comes back linked to them, and no byte is left over. The indices of globals in the code lie within the builtins and the saved names. |
| `Bytecode.LinkedIffSameBuiltins` | components/aktualino_berry/berry/src/be_bytecode.c:457-483 | Every access to a saved global or builtin refers to the one of the same name after loading, with opcode and register kept, if and only if both machines have the same builtins or the builtins here begin with all the saved builtins and globals. The comparison of their numbers alone does not ensure this. |
| `Bytecode.CodeLinked` | components/aktualino_berry/berry/src/be_bytecode.c:457-483 | On a machine with the same builtins the loaded code is the saved one word by word, except that each access has the index its name has here. |
| `Bytecode.GlobalAccessIff` | components/aktualino_berry/berry/src/be_bytecode.c:457-483 | Accesses to globals are the instructions with opcode 24 or 25. |
| `Bytecode.Declared` | components/aktualino_berry/berry/src/be_bytecode.c:552-569 | Declaring the saved globals keeps the index of every global the machine has and gives each name one index. |
| `Bytecode.ProtoTrip` | components/aktualino_berry/berry/src/be_bytecode.c:236-250 | What the saver writes for a prototype loads as the same prototype (code with the globals linked, constants, nested prototypes, upvalues), whatever follows it and whatever the string table holds, and takes exactly its bytes. Names and strings are shorter than 65536 bytes, without an inner NUL up to 64 bytes; indices of globals lie within the builtins and the saved names. |
| `Bytecode.NormKeeps` | components/aktualino_berry/berry/src/be_bytecode.c:528-550 | The loaded prototype has every field of the saved one; code, constants and nested prototypes correspond one by one. |
| `Bytecode.ConstantKept` | components/aktualino_berry/berry/src/be_bytecode.c:446-455 | Nil, numbers and strings are unchanged, classes keep their names, and constants of other types are nil. |
| `Bytecode.MemberKept` | components/aktualino_berry/berry/src/be_bytecode.c:415-444 | A method becomes a closure that is static unless its prototype has the method flag; variables and static nils are unchanged. |
| `Bytecode.ClassTrip` | components/aktualino_berry/berry/src/be_bytecode.c:160-175 | Under the same conditions a saved class loads with its methods, its nil statics and its variables in the order of their indices. |
| `Bytecode.NormClassFinds` | components/aktualino_berry/berry/src/be_bytecode.c:415-444 | The loaded class answers every member name as the saved one did: variables at the same index, methods as closures. A closure is static as before if and only if its flag agreed with its prototype's. |
| `Bytecode.Int1` | components/aktualino_berry/berry/src/be_bytecode.c:364-374 | A 64-bit integer of either sign is read back as written. |
| `Bytecode.Real1` | components/aktualino_berry/berry/src/be_bytecode.c:376-391 | So are the 64 bits of a real. |
| `Bytecode.LongBytes` | components/aktualino_berry/berry/src/be_bytecode.c:65-73 | Four bytes with the lowest first. |
| `Bytecode.IntBytes` | components/aktualino_berry/berry/src/be_bytecode.c:86-94 | A 64-bit integer is eight bytes in two's complement, the lowest first. |
| `Bytecode.RealBytes` | components/aktualino_berry/berry/src/be_bytecode.c:96-108 | A real is the eight bytes of its 64 bits, the lowest first. |
| `Bytecode.StringBytes` | components/aktualino_berry/berry/src/be_bytecode.c:110-118 | A string is its length in two bytes, the lowest first, and its bytes. |
| `Bytecode.SampleProto` | components/aktualino_berry/berry/src/be_bytecode.c:236-250 | A small prototype byte by byte, with a nil, a negative integer and a string among its constants. |
| `Bytecode.SampleClass` | components/aktualino_berry/berry/src/be_bytecode.c:120-175 | A small class: counts, methods and static nil, and then the names of its variables. |
| `Bytecode.FileHead` | components/aktualino_berry/berry/src/be_bytecode.c:75-84 | A file begins with BE CD FE, the version 4 and the sizes of integers and reals. |
| `Bytecode.RefusedIff` | components/aktualino_berry/berry/src/be_bytecode.c:571-595 | Exactly the files with another head, or with more builtins in the next field than the machine has, are refused. |
| `Bytecode.StringSurvives` | components/aktualino_berry/berry/src/be_bytecode.c:393-405 | A string is read back as written, whatever strings are interned already, if and only if it is shorter than 65536 bytes and, up to 64 bytes, has no NUL before its last byte. |
| `Bytecode.EmptyNameLost` | components/aktualino_berry/berry/src/be_bytecode.c:528-550 | A prototype with an empty name loads as no prototype, and all of its bytes behind the name are left unread. |
| `Bytecode.ConstantSurvives` | components/aktualino_berry/berry/src/be_bytecode.c:177-187 | A constant other than a class is read back as written on every machine if and only if its type is one of nil, integer, real and string and, for a string, the condition above holds. |
| `Bytecode.BuiltinsRefused` | components/aktualino_berry/berry/src/be_bytecode.c:552-560 | A file saved with more builtins than the machine has is refused. |
| `Bytecode.WriteFile` | components/aktualino_berry/berry/src/be_bytecode.c:284-296 | The saver writes exactly the encoding the round trip is about, or stops where a class has an unsupported member or, with named globals, a word equals one of the two opcode numbers. |
| `Bytecode.WriteProto` | components/aktualino_berry/berry/src/be_bytecode.c:236-250 | The same for one prototype. |
| `Bytecode.WriteMembers` | components/aktualino_berry/berry/src/be_bytecode.c:120-158 | Methods and static members are written in the order of the map, and the cache holds the name of each variable at its index; with no room for names the walk stops at the first variable. |
| `Bytecode.WriteClass` | components/aktualino_berry/berry/src/be_bytecode.c:160-175 | A class is written with its counts, its methods and then its variable names by index. |
| `Bytecode.WriteCode` | components/aktualino_berry/berry/src/be_bytecode.c:189-202 | The code is written word by word; with named globals it stops at a word that equals the number of GETGBL or SETGBL. |
| `Bytecode.GuardRightIff` | components/aktualino_berry/berry/src/be_bytecode.c:193-200 | That comparison recognises access to a global exactly for the words that are no access and differ from both numbers: it never stops at an access. |
| `Bytecode.AccessesSaved` | components/aktualino_berry/berry/src/be_bytecode.c:193-200 | So code that consists of accesses to globals is saved with named globals, without their names. |
| `Bytecode.ReadFile` | components/aktualino_berry/berry/src/be_bytecode.c:571-595 | The loader computes the decoding the round trip is about and declares the globals as it reads them, on truncated files too. Where C is undefined (see below), the model's choice is computed. |
| `Bytecode.ReadProto` | components/aktualino_berry/berry/src/be_bytecode.c:528-550 | The same for one prototype; reading terminates on every input. |
| `Bytecode.ReadClass` | components/aktualino_berry/berry/src/be_bytecode.c:415-444 | Methods and variables are bound in the order in which they are read. |
| `Bytecode.ReadCode` | components/aktualino_berry/berry/src/be_bytecode.c:457-483 | Instructions are read one by one, and indices of globals above the builtins are replaced by those the names have here; an index beyond the saved names, undefined in C, is left alone. |
| `Base64.RoundTrip` | components/aktualino_berry/berry/src/be_byteslib.c:172-233 | Decoding the encoding of any bytes gives them back. |
| `Base64.Alphabet` | components/aktualino_berry/berry/src/be_byteslib.c:112-129 | A-Z, a-z, 0-9, + and / in this order. |
| `Base64.InAlphabet` | components/aktualino_berry/berry/src/be_byteslib.c:131-148 | A character is read as a value below 64 exactly when it is the one written for that value. |
| `Base64.Vectors` | components/aktualino_berry/berry/src/be_byteslib.c:172-207 | The encodings RFC 4648 gives for f, fo, foo and foob. |
| `Base64.Injective` | components/aktualino_berry/berry/src/be_byteslib.c:172-207 | Different bytes have different encodings. |
| `Base64.Encode` | components/aktualino_berry/berry/src/be_byteslib.c:172-207 | The encoder writes the encoding of its input, padding included, and returns the length the length function predicts. |
| `Base64.Decode` | components/aktualino_berry/berry/src/be_byteslib.c:209-233 | The decoder writes the decoding of its input and returns its length. |
| `Base64.DecodeLength` | components/aktualino_berry/berry/src/be_byteslib.c:154-170 | The scan for the first byte outside the alphabet gives the size of the decoding. |
| `Base64.SizeEncoded` | components/aktualino_berry/berry/src/be_byteslib.c:150-152 | The size of the encoding is four bytes for each three begun. |
| `BitFields.GetBits` | components/aktualino_berry/berry/src/be_byteslib.c:1367-1390 | Reading a field collects exactly its bits, whatever byte boundaries it crosses; a width outside 1..32 is refused. |
| `BitFields.WordField` | components/aktualino_berry/berry/src/be_byteslib.c:1367-1390 | A field of four whole bytes is their little-endian number. |
| `BitFields.FieldSplit` | components/aktualino_berry/berry/src/be_byteslib.c:1367-1390 | A field is its lower part plus the rest, shifted. |
| `BitFields.SetBits` | components/aktualino_berry/berry/src/be_byteslib.c:1403-1425 | Writing a field replaces exactly its bits and no other bit of the buffer. |
| `BitFields.ReadBack` | components/aktualino_berry/berry/src/be_byteslib.c:1367-1425 | A written field reads back as the value modulo 2 to the width. |
| `BitFields.OtherFieldsKept` | components/aktualino_berry/berry/src/be_byteslib.c:1403-1425 | Every field that does not overlap the written one reads as before. |
| `CanonicalJson.CanonicalEqualIffSame` | components/aktualino_crypto/akt_canonical.c:115-183 | Two values with distinct member names and exact integers have equal canonical texts if and only if they are equal up to the order of object members at any depth. |
| `CanonicalJson.CanonicalText` | components/aktualino_crypto/akt_canonical.c:171-183 | The canonical text is returned unless memory runs out, for the text or for the array of children that is sorted; 132 bytes and twice the length of the text are always enough. `CanonicalJson.ObjectText`, `CanonicalJson.ArrayText` and `CanonicalJson.LeafText` say what it is. |
| `CanonicalJson.ObjectText` | components/aktualino_crypto/akt_canonical.c:142-164 | The text of an object is its sorted members in braces with commas between them, each a quoted name, a colon and the text of the value. |
| `CanonicalJson.SortAscends` | components/aktualino_crypto/akt_canonical.c:107-113 | Of any two members of a sorted object, the name of the earlier one is a proper prefix of the other name or has the smaller byte where they first differ. |
| `CanonicalJson.SortChildren` | components/aktualino_crypto/akt_canonical.c:142-154 | Sorting keeps every member, as often as it occurs. |
| `CanonicalJson.ArrayText` | components/aktualino_crypto/akt_canonical.c:131-141 | The text of an array is the texts of its items in their order, in brackets with commas between them. |
| `CanonicalJson.LeafText` | components/aktualino_crypto/akt_canonical.c:116-132 | null, false, true, the quoted string, the decimal form of an integer below 9.2e18 in size, and `%.17g` for any other number. |
| `CanonicalJson.SampleText` | components/aktualino_crypto/akt_canonical.c:115-183 | An example: the members b and a are written as a and b, and a newline is escaped. |
| `CanonicalJson.EscapeIs` | components/aktualino_crypto/akt_canonical.c:62-89 | The escape of every byte: quote, backslash, the five letters, four hexadecimal digits in lower case below 32, and otherwise the byte itself. |
| `CanonicalJson.NoLeadingZero` | components/aktualino_crypto/akt_canonical.c:92-104 | Only zero is written with a leading zero. |
| `CanonicalJson.Buffer.Emit` | components/aktualino_crypto/akt_canonical.c:116-169 | The recursive writer appends the text of the value with its members sorted at every depth. |
| `CanonicalJson.Buffer.Reserve` | components/aktualino_crypto/akt_canonical.c:32-42 | Doubling the buffer keeps its contents and makes room, or sets the error flag when memory is short. |
| `CanonicalJson.Buffer.WriteString` | components/aktualino_crypto/akt_canonical.c:62-89 | A string is written quoted, each byte by its own escape. |
| `CanonicalJson.Buffer.WriteNumber` | components/aktualino_crypto/akt_canonical.c:92-104 | A number is written as an integer when it is one within range. |
| `CanonicalJson.EscapedPrefix` | components/aktualino_crypto/akt_canonical.c:62-89 | The escaped form determines the string and where it ends. |
| `CanonicalJson.DecimalPrefix` | components/aktualino_crypto/akt_canonical.c:92-104 | The decimal form determines the integer and where it ends. |
| `CanonicalJson.PrintPrefix` | components/aktualino_crypto/akt_canonical.c:116-169 | A printed value determines the value and where its text ends. |
| `CanonicalJson.SortedUnique` | components/aktualino_crypto/akt_canonical.c:107-113 | Sorted members with distinct names are determined by what is found under each name. |
| `CanonicalJson.SortSorts` | components/aktualino_crypto/akt_canonical.c:107-113 | Sorting by name gives strictly ascending names, in the order of `CanonicalJson.LessIff`. |
| `CanonicalJson.LessIff` | components/aktualino_crypto/akt_canonical.c:107-113 | A name comes before another if it is a proper prefix of it or has the smaller byte where they first differ, and only then. |
| `Uptane.VerifyRole` | components/aktualino_uptane/akt_uptane.c:57-134 | An envelope is accepted if and only if the role is well formed, its threshold is met, its version is not below the minimum and it has not expired; otherwise the result names the first check that fails. `Uptane.AcceptedIff` and `Uptane.RefusalCodes` say both in terms of the JSON values. |
| `Uptane.AcceptedIff` | components/aktualino_uptane/akt_uptane.c:57-134 | With no key id listed twice, acceptance means exactly this: there are at least threshold > 0 key ids that the role lists and for each of which the first signature entry with that id verifies, by the key object of that id, over the canonical text of the signed part; the version is at least the minimum; and for a non-zero time the expiry is later. |
| `Uptane.NothingUnsigned` | components/aktualino_uptane/akt_uptane.c:83-112 | If no signature verifies, nothing is accepted. |
| `Uptane.RefusalCodes` | components/aktualino_uptane/akt_uptane.c:57-134 | Which check a refusal names: a missing role, too few signatures, expiry, or the version, in this order. |
| `Uptane.AcceptedSigners` | components/aktualino_uptane/akt_uptane.c:78-112 | With no key id listed twice, an accepted envelope carries valid signatures by at least threshold > 0 different key ids of the role over one canonical text (`Uptane.SignsIff`). |
| `Uptane.CountExact` | components/aktualino_uptane/akt_uptane.c:81-107 | The count is the number of distinct signers, whoever signs, if and only if the role lists no key id twice. |
| `Uptane.OneSignerMeetsTwo` | components/aktualino_uptane/akt_uptane.c:81-107 | An envelope with one valid signature is accepted under a root that lists the key id twice with a threshold of two. |
| `Uptane.CountSignatures` | components/aktualino_uptane/akt_uptane.c:83-107 | The loop counts the listed key ids whose first signature entry is valid under the key of that id (`Uptane.SignsIff`). |
| `Uptane.SignsIff` | components/aktualino_uptane/akt_uptane.c:45-55 | A key id has signed exactly when there is a key object under it and the first signature entry with this id has a string the key verifies over the text. |
| `Uptane.SameContentSameSigners` | components/aktualino_uptane/akt_uptane.c:75-107 | Reordering the members of the signed content changes no signature's validity. |
| `Uptane.ExpiryGate` | components/aktualino_uptane/akt_uptane.c:114-122 | For a non-zero time, content with a valid timestamp passes the expiry check exactly when the timestamp is later. |
| `Uptane.SelectTarget` | components/aktualino_uptane/akt_uptane.c:264-296 | The first target for the hardware id is selected if it is well formed and its path has no double dot; it is refused as no target exactly when none names our hardware, and as malformed in every other case. |
| `Uptane.AssignedIff` | components/aktualino_uptane/akt_uptane.c:264-296 | Selected is exactly the first target for our hardware, if its name has no double dot and its hash and length are stated; the name is cut after 253 bytes. |
| `Uptane.HwidIff` | components/aktualino_uptane/akt_uptane.c:152-178 | A target is for our hardware if its custom part names it as `hardwareIdentifier`, among `hardwareIds`, or as `hardwareId` of a member of `ecuIdentifiers`, and only then. |
| `Uptane.HashOfIff` | components/aktualino_uptane/akt_uptane.c:264-296 | The length is the truncated number `length`; the hash is the 32 bytes that `hashes.sha256` spells in hexadecimal. |
| `Uptane.AssignedIsOurs` | components/aktualino_uptane/akt_uptane.c:264-296 | A selected target names our hardware and carries its stated hash of 32 bytes and its length, and its path has no double dot. |
| `Uptane.MetaLinkPins` | components/aktualino_uptane/akt_uptane.c:200-235 | A link holds exactly when the pinned hash and length are those of the served bytes and the pinned version agrees. |
| `Uptane.MetaLinkIff` | components/aktualino_uptane/akt_uptane.c:200-235 | The entry of the file under `meta` states hash and length of the served bytes and, for a version that is not negative, this version. |
| `Uptane.MatchesIsListed` | components/aktualino_uptane/akt_uptane.c:237-262 | The image repository agrees exactly when it lists the same path with the same hash and length. |
| `Uptane.TargetMatchesIff` | components/aktualino_uptane/akt_uptane.c:237-262 | The entry of the path under `targets` states the same hash and length. |
| `Json.FindIsFirst` | components/aktualino_uptane/akt_uptane.c:40-43 | A member that is found is the first one with its name, and one is found if there is any. |
| `Dates.EpochIsZero` | components/aktualino_uptane/akt_uptane.c:12-22 | 1970-01-01 is day 0. |
| `Dates.NextDay` | components/aktualino_uptane/akt_uptane.c:12-22 | From each date of the Gregorian calendar to the next one the day number rises by exactly one, in every year. |
| `Dates.YearHas` | components/aktualino_uptane/akt_uptane.c:12-22 | Every year has 365 days, or 366 if it is a multiple of 400 or of 4 but not of 100. |
| `Dates.EpochSecond` | components/aktualino_uptane/akt_uptane.c:24-37 | 1970-01-01 00:00:00 is second 0. |
| `Dates.NextSecond` | components/aktualino_uptane/akt_uptane.c:24-37 | From each valid timestamp to the next one the seconds rise by exactly one. |
| `Dates.RejectedIff` | components/aktualino_uptane/akt_uptane.c:24-37 | A timestamp is rejected exactly for a month outside 1..12 or a day outside 1..31. |
| `Dates.DaysInOrder` | components/aktualino_uptane/akt_uptane.c:12-22 | Valid dates are in the order of their day numbers. |
| `Dates.SecondsInOrder` | components/aktualino_uptane/akt_uptane.c:24-37 | Valid timestamps are accepted and are in the order of their seconds. |
| `Dates.InOrderIffValid` | components/aktualino_uptane/akt_uptane.c:24-37 | An accepted timestamp is in order with all valid ones if and only if its own date and time exist. |
| `Dates.SecondsDetermineIffValid` | components/aktualino_uptane/akt_uptane.c:24-37 | The seconds of an accepted timestamp belong to no other valid one if and only if it is valid itself. |
| `Dates.NoSuchDateAccepted` | components/aktualino_uptane/akt_uptane.c:24-37 | An example: a date that does not exist is accepted, and counts as later than a date written after it. |
| `Device.Device.Life` | main/aktualino_main.c:310-490 | Over any sequence of resets, boots, polls and installs, with the power failing after any write: the boot image is the one confirmed last, or it is the pending one, with the recorded hash and length, and the image confirmed last is in the other slot. The image confirmed last is the one from the beginning or that of an installation on record. Every installation on record is vouched for by metadata of both repositories, each accepted, expiry included, at the time of one of the polls by a root that descends from an anchor of that repository; in no role is this metadata older than that of an earlier installation or than the versions stored at the beginning. Anchors are the roots stored at the beginning and self-verified embedded ones. Stored role versions never decrease; nor do the versions of the two roots, first boot included, if every root to be stored can be read back. |
| `Device.Device.FallBack` | main/aktualino_main.c:310-380 | The state of the flash at any time: an unconfirmed boot image has the hash and the length of the pending target, and the other slot has the image confirmed last; a confirmed boot image is that image. |
| `Device.Device.OnRecord` | components/aktualino_core/aktualino_core.c:376-435 | The record at any time: each installation is justified, none goes by older metadata than one before it, and the stored versions have reached them all. |
| `Trust.JustifiedIff` | components/aktualino_core/aktualino_core.c:440-649 | An installation is justified by a chain of roots for each repository, three roles accepted by the last root of each, the image repository's snapshot pinned by its timestamp and its targets by its snapshot, and the target assigned by the one and listed by the other. |
| `Trust.RoleIff` | components/aktualino_core/aktualino_core.c:376-435 | A role is accepted under its own name by the last root of the chain. |
| `Trust.ReferredIff` | components/aktualino_core/aktualino_core.c:535-608 | A file is pinned when its link holds for the served bytes and the version it claims. |
| `Trust.NotOlderMeans` | components/aktualino_core/aktualino_core.c:376-435 | Not older means so for each of the six roles. |
| `Device.Device.Boot` | main/aktualino_main.c:310-490 | The same from one reset to the next. |
| `Device.Device.PollLoop` | main/aktualino_main.c:391-490 | The same for the poll loop, from first boot with no stored root on; it ends in a reboot after an install and confirms no image. |
| `Device.Device.PollOnce` | main/aktualino_main.c:424-466 | Flash, boot slot, pending record and history change only for a target both repositories agree on at the time of this poll, by the chains of their stored roots and with the versions that are stored now. A reboot is asked for only after an image that is not the recorded one was installed. It is asked for whenever the Director assigns a target, no image is recorded or its hash is another, the image repository lists the target, its image arrives and the power lasts. If the recorded image has the hash of the target the Director serves, there is no reboot, and flash, boot slot, pending record and history stay as they were. |
| `FirstUpdate.FirstUpdate` | main/aktualino_main.c:310-466 | One device with concrete files: at its first poll both roots rotate from version 1 to version 2 and the assigned image is installed, the next boot confirms it and makes it the recorded one, and the next poll leaves it alone. |
| `Device.Device.Install` | components/aktualino_core/aktualino_core.c:682-795 | Flash, boot slot and pending record are as before unless both repositories vouch for the target at this time, by the chains of their stored roots and with the versions that are stored now. The running slot is never written. Success means the other slot boots next, its image has the target's hash and length and is recorded as pending; after any other error but a power loss the device runs on. If the image repository lists the target, the download matches and there is power for the writes, the install succeeds. |
| `Device.Device.SetPending` | components/aktualino_store/aktualino_store.c:423-443 | The pending record is on record with its evidence; no installation on record goes by older metadata than an earlier one. |
| `Trust.HistoryGrows` | components/aktualino_core/aktualino_core.c:376-435 | Metadata with the stored versions is in no role older than that of any installation before, because the stored versions have reached all of them. |
| `Device.Device.Fetch` | components/aktualino_core/aktualino_core.c:725-773 | The downloaded image counts if and only if it is complete and its length and hash are those of the target, as long as there is power. |
| `Device.Device.Activate` | components/aktualino_core/aktualino_core.c:775-795 | The pending record is there before the boot slot changes; when that change is refused, nothing is pending and both slots are as before; with power for two writes nothing else can go wrong. |
| `Device.Device.Stream` | components/aktualino_ota/aktualino_ota.c:10-74 | The slot that is not running holds exactly the chunks that arrived, in their order, and the running slot is untouched. |
| `Device.Device.Crosscheck` | components/aktualino_core/aktualino_core.c:610-649 | Success means both repositories vouch for the target at this time, by the chains of their stored roots and with the versions that are stored now; it succeeds if the image repository, as served, verifies and lists the target and there is power. |
| `Device.Device.VerifyImageRepo` | components/aktualino_core/aktualino_core.c:535-608 | Success means timestamp, snapshot and targets were accepted now by the stored root of the image repository, which ends a chain from one of its own anchors, are tied together by hash, length and version, and their versions are the stored ones. If the served files are like that and there is power, it succeeds. |
| `Device.Device.PollDirector` | components/aktualino_core/aktualino_core.c:440-517 | Success means the three roles were accepted now by the stored root of the Director, which ends a chain from one of its own anchors, and their versions are the stored ones; the target is the one the accepted targets assign to our hardware, or there is none. An assigned target is found if the served files are acceptable and there is power. |
| `Trust.UnpinnedSnapshot` | components/aktualino_core/aktualino_core.c:440-517 | The Director can assign a target although its timestamp pins no snapshot: an accepted example. |
| `Device.Device.FetchRole` | components/aktualino_core/aktualino_core.c:376-435 | The version of an accepted file is stored and no stored version ever decreases; after any error all stored versions are as before. A served file that is acceptable now and not below the stored version is taken, if memory and power last. |
| `Device.Device.WalkRoot` | components/aktualino_core/aktualino_core.c:273-371 | Finished or stopped at any link, the stored root ends a chain that continues the old one with links accepted now, and its version is not lower than before the walk. If every served root up to the latest may follow its predecessor and there is power, the walk ends at the latest. |
| `Device.Device.WalkLinks` | components/aktualino_core/aktualino_core.c:325-367 | The loop over the numbered roots keeps this after every link, and stores the index of the last root adopted. |
| `Device.Device.AdoptRoot` | components/aktualino_core/aktualino_core.c:326-366 | A root is stored only if it meets, now, the threshold of its predecessor's root role and of its own, with a version of at least its index; and it is stored if it does and memory and power last. |
| `Trust.WalkRaises` | components/aktualino_core/aktualino_core.c:325-367 | A walk that has adopted a root leaves a higher version behind. |
| `Trust.IndicesGrow` | components/aktualino_core/aktualino_core.c:325-367 | Roots are adopted under growing indices, and none claims less than its index. |
| `Trust.NextLinkCanLower` | components/aktualino_core/aktualino_core.c:340-346 | Inside one walk the next link can lower the stored version exactly when the last root claims more than the next index; shown with a root that signs for itself. |
| `Trust.NextLinkKeeps` | components/aktualino_core/aktualino_core.c:340-346 | A version that does not exceed the next index is never lowered by the next link. |
| `Device.Device.InitAnchor` | components/aktualino_core/aktualino_core.c:164-249 | A stored root that can be read back stays; otherwise the embedded root replaces it, if it meets the threshold of its own root role. On success the stored version goes down if and only if the stored root could not be read back and the embedded one is older. The embedded root becomes an anchor only when it was accepted. |
| `Device.LargeRootLost` | components/aktualino_core/aktualino_core.c:164-249 | An example: a stored root of 8193 bytes with version 5 is replaced by an embedded one with version 1. |
| `Trust.ChainIs` | components/aktualino_core/aktualino_core.c:325-367 | A chain starts at an anchor of its own repository, and every root after it was accepted, at the time of a poll, by the threshold of its predecessor and of itself. |
| `Trust.ChainMeans` | components/aktualino_core/aktualino_core.c:325-367 | Link by link: accepted by the root before and by itself under its index, with growing indices, each at the time of a poll. |
| `Device.Device.HandlePostBoot` | main/aktualino_main.c:310-380 | Afterwards the running image is confirmed; a reported update becomes the recorded image and is no longer pending; after a rollback the record is kept and the pending update dropped. An image that is newly confirmed is vouched for by both repositories. With power for three writes all of this takes place. |
| `Device.Device.SetBoot` | components/aktualino_ota/aktualino_ota.c:107-121 | Changing the boot slot keeps the invariant, because the pending record is already there. |
| `Device.Device.MarkValid` | components/aktualino_ota/aktualino_ota.c:134-143 | Confirming makes the running image valid; it was confirmed before, or both repositories vouch for it. |
| `Device.Device.Reset` | components/aktualino_ota/aktualino_ota.c:134-202 | A new image is tried once; when it was not confirmed before the next reset, the other slot boots, which holds the very bytes that were confirmed last. Nothing else changes in either slot. |

## Left out

- Network, TLS, redirects, captive portal, DNS, Wi-Fi, SNTP, GPIO, tasks and logging: input and output only.
- Cryptographic primitives, JSON parsing, storage and flash drivers: parameters, or atomic updates that succeed while there is power.
- The truth of the running-image record after a reset between staging and the boot switch: the code after booting does not tell this case apart, so the model makes no claim about it.
- Factory reset, provisioning, manifests, correlation ids and the script secondary: thin, or nothing to prove about the state modelled here.
- Map keys other than integers and strings without NUL: equality and hash of other keys are not aligned by this code alone. `hash % size` stands for the slot of a key, `be_nextsize` for any larger size, and sizes stay below the 24-bit end marker.
- Destructors and resurrection, the instance's `sub` link, short strings as collected objects, thresholds and counters of the collector; the list `gc.fixed`, to which nothing is ever added; changes to objects by the running program between collections, which only have to keep `Collector.Vm.Valid`. Const objects refer to const objects only.
- The links between pools: the two pool lists are sequences, and a bitmap is a sequence of bits.
- A collection inside the allocation of a new string: the bucket pointer is taken before it, so it is assumed not to happen there. Constant strings compiled into the firmware are not looked up in `StringTable`; `Bytecode` allows for them.
- A null block pointer passed with a non-zero old size, which no caller does.
- Instruction encoding of the literal -131072, and code generation other than jump lists.
- Nested classes whose methods index globals that are not builtin: the list of names is then taken from the wrong stack slot. Counts of 2^31 and more, which C reads as negative, indices beyond the saved names, variable indices out of range and the unread rest of a truncated string are undefined in C; the model reads them as large, leaves them, ignores them, and takes zero.
- Base64 lengths are unbounded instead of 32 bits wide; bit fields are read and written inside the buffer.
- Raw JSON items, which the parser never makes; the order `qsort` gives to members of equal name; lengths and versions outside the integer range of the target.
- Berry's lexer, parser, virtual machine loop, closures, lists and JSON module; ZIP extraction and the Python tools.
