# Verified models of SpiderMonkey support code

A Dafny 4.11 model of seven parts of the repository, with proofs of what they promise. `dafny verify
dfyconfig.toml` checks everything.

| part | source | modules |
|---|---|---|
| the open-addressed hash table and its sweeping clients | `js/public/HashTable.h`, `js/public/GCHashTable.h` | `Powers`, `Probing`, `TableModel`, `TableProbes`, `TableRehash`, `TableLoad`, `HashTables`, `HashMaps`, `GCHashMaps`, `HashMapRuns` |
| Tarjan's algorithm and the include-cycle check | `config/check_spidermonkey_style.py` | `Graphs`, `TarjanModel`, `TarjanSearch`, `IncludeGraphs`, `CycleDrawings`, `HeaderCycles` |
| the cross-process object wrapper (CPOW) protocol | `js/ipc` | `Cpows`, `CpowRuns`, `CpowTheorems`, `CpowLiveness`, `CpowLeaks`, `WrapperOwners` |
| heap-graph traversals | `js/public/UbiNodeBreadthFirst.h`, `js/public/UbiNodePostOrder.h` | `HeapGraphs`, `BreadthFirstModel`, `BreadthFirstRuns`, `BreadthFirstOrder`, `BreadthFirstSearch`, `PostOrderModel`, `PostOrderOrder`, `PostOrderSearch` |
| double-to-integer conversion | `js/public/Conversions.h` | `Conversions` |
| the overwriting zip archive | `config/MozZipFile.py` | `ZipArchives`, `ZipCompaction`, `ZipFiles` |
| relative paths | `config/pathsub.c` | `RelativePaths`, `PathSub` |

Objects that the source updates in place are classes (`HashTable`, `Enum`, `HashMap`, `Tarjan`, `Drawer`,
`WrapperOwner`, `Queue`, `BreadthFirst`, `PostOrder`, `ZipFile`), loops are loops, and the C strings of
`pathsub.c` are arrays of characters with a terminator. Each method is tied to a specification on values,
and the theorems are lemmas about those values.

Whatever the source cannot decide alone is left open: whether an allocation succeeds, what a handler or
visitor answers, what the collector frees or moves, in which order messages arrive, and the hash function.
Statements hold for every choice. For the CPOW protocol that means more than FIFO delivery: drops are
asynchronous at normal priority while the other messages are synchronous at high priority
(`js/ipc/PJavaScript.ipdl`), so a message in flight may be overtaken, and the network is a bag.

## Where the code does less than its documentation or its names say

- `CpowLiveness.StaleDropHappens`: with asynchronous drops a CPOW can die while the channel is up. The host
  handles an old drop for an id it has since exported again. `CpowLiveness.UsableIffNoStaleDrop` shows that
  this is the only way.
- `CpowTheorems.InverseIffNoHalfExport`: when the second of the two table insertions of an export fails, the
  first is not undone, and `objects_` keeps an entry that no object-to-id map has.
- `Conversions.ToUint8IsToInt8`: `ToUint8` is declared to return `int8_t`, so from 128 on it does not return
  the residue it computes.
- `BreadthFirstOrder.OrderExactly`: "any prior calls were for origins not further from the start nodes" can fail
  for starts added with `addStart`, which are not marked visited; `BreadthFirstRuns.UnmarkedStartBreaksOrder`
  is such a run. Counted around abandoned nodes, it fails exactly when a start is queued again behind a node that
  is no start. A caller avoids that by marking every start that has edges and is reached again
  (`BreadthFirstOrder.SafeStartsKeepOrder`). By distance in the whole graph it can fail even for a marked start once
  a node is abandoned (`BreadthFirstOrder.AbandoningBreaksOrder`).
- `CpowLeaks.HeldIffNoLostDelivery`: when the peer cannot make a CPOW for an id it is sent, the host is not told, and
  keeps the object in its tables although no CPOW for it exists or is on its way; `CpowLeaks.LeakHappens` is such a run.
- `CpowTheorems.MisreadExactlyAfterHalfMaking`: when a proxy has been made and `cpows_` has no room for it, it is
  left with undefined slots, and the collector will read its owner from one of them.
- `IncludeGraphs.IncludeGraph`: the edges of a `.tbl` or `.msg` name are those of whatever file was read before it,
  and such a file met first raises an error. No cycle comes of it (`IncludeGraphs.HandedOnSetsMakeNoCycle`).
- `PostOrderModel.NodesVisitedOnce` and `PostOrderOrder.PostOrderExactly`: one call of `onNode` per reachable
  node needs different starts, and post-order among several starts needs the condition given there;
  `PostOrderOrder.TwoStartsOutOfOrder` is an example without it.
- `RelativePaths.RelatedExactly`: `relatepaths` miscounts when an empty component of `from` follows the shared
  part.
- `RelativePaths.NothingToWrite`: from a path to itself, written with a slash at its end, `relatepaths` writes
  nothing, not even the terminator.

## Model

| member | source | states |
|---|---|---|
| Probing.PathIsRound | js/public/HashTable.h:1266-1290 | for every hash and capacity, one round of the probe sequence inspects each slot exactly once |
| Probing.OddStrideIsRound | js/public/HashTable.h:1277-1290 | any odd stride gives such a round, from any first slot |
| Probing.PathClosedForm | js/public/HashTable.h:1287-1290 | the k-th slot of a probe in closed form |
| Probing.StrideIsOdd | js/public/HashTable.h:1277-1285 | the second hash is odd |
| Probing.PrimarySlotInRange | js/public/HashTable.h:1266-1269 | the first hash is a slot |
| Probing.HashesReadBits | js/public/HashTable.h:1266-1285 | the first hash is the top bits of the hash number, and the second the bits below them, with the lowest set |
| TableModel.PrepareHash | js/public/HashTable.h:1157-1165 | a prepared hash is live and has a clear collision bit, and otherwise is the hash; the two reserved hashes wrap below zero |
| TableModel.OnlyMarksKeepsPlaced | js/public/HashTable.h:803-803 | setting collision bits on live entries hides no entry from its probe |
| TableModel.RemoveKeepsPlaced | js/public/HashTable.h:1494-1510 | a removal, leaving a tombstone or a free slot by the collision bit, hides no other entry |
| TableModel.StoreKeepsPlaced | js/public/HashTable.h:1593-1600 | filling a free slot, or a tombstone with the collision bit kept, hides no entry |
| TableModel.RemoveFromStores | js/public/HashTable.h:1494-1510 | removing a live entry removes exactly its key from the map |
| TableModel.AddToStores | js/public/HashTable.h:809-816 | storing an entry with a new key adds exactly that mapping |
| TableModel.MissMeansAbsent | js/public/HashTable.h:1366-1370 | a probe that reaches a free slot without a match proves the key absent |
| TableModel.PresentKeyIsPlaced | js/public/HashTable.h:1324-1377 | a key of the map lies on its probe path before any free slot |
| TableModel.FreeSlotExists | js/public/HashTable.h:1292-1298 | fewer live and removed slots than capacity leave a free one, so every probe ends |
| TableProbes.ProbeOn | js/public/HashTable.h:1348-1376 | the collision loop of lookup: where it stops, what it marks, and that it offers the first tombstone passed, if any; it terminates |
| TableProbes.Probe | js/public/HashTable.h:1324-1377 | lookup as a whole on the raw array, with the same account of the slot it returns |
| TableProbes.ProbeResult | js/public/HashTable.h:1324-1377 | what the slot says about the map: the key's entry if present, else a slot where it may be added |
| TableProbes.ProbeFor | js/public/HashTable.h:1324-1377 | lookup on a sound table finds exactly the keys of the map, and changes nothing without the collision bit |
| TableProbes.FindFreeEntry | js/public/HashTable.h:1385-1419 | ends at a slot that is not live, all before it on the path newly marked |
| TableRehash.CopyLive | js/public/HashTable.h:1446-1455 | the new array holds exactly the old live entries, soundly placed, and no tombstone |
| TableRehash.LiveSlotsCountKeys | js/public/HashTable.h:1654-1658 | there are as many live slots as keys in the map |
| TableRehash.ClearMarks | js/public/HashTable.h:1545-1546 | every collision bit is cleared, so tombstones become free |
| TableRehash.MoveTo | js/public/HashTable.h:781-792 | swap and setCollision: what each of the two slots holds afterwards |
| TableRehash.MoveKeepsStores | js/public/HashTable.h:1560-1564 | one move of the in-place rehash keeps the map |
| TableRehash.MoveKeepsCounts | js/public/HashTable.h:1548-1570 | one move keeps the number of live entries and leaves fewer waiting, so the rehash ends |
| TableRehash.MoveSettles | js/public/HashTable.h:1560-1564 | after a move every marked slot is live and reached from its own hash through marked slots |
| TableRehash.FindUnmarked | js/public/HashTable.h:1556-1569 | the inner loop ends at the first slot on the entry's path not yet settled |
| TableRehash.PlaceAll | js/public/HashTable.h:1548-1570 | the outer loop terminates with every live entry marked and the map unchanged |
| TableRehash.RehashedIsSound | js/public/HashTable.h:1541-1577 | what the loop leaves is a sound table |
| TableRehash.RehashInPlace | js/public/HashTable.h:1541-1577 | the whole rehash keeps exactly the mappings, leaves no tombstone, and the table is sound |
| TableLoad.RebuiltIsBalanced | js/public/HashTable.h:1462-1483 | a grown table is neither overloaded nor underloaded; a compressed one is not overloaded |
| TableLoad.LoadBounds | js/public/HashTable.h:1292-1312 | overloaded is three quarters full; underloaded is a quarter full and not minimal; compressing is for a quarter of tombstones |
| TableLoad.TooFullToGrow | js/public/HashTable.h:1428-1434 | a table that must grow is more than half full of live entries, so one at the maximum size holds more than 2^29 |
| TableLoad.RoundUpCapacity | js/public/HashTable.h:1229-1239 | the rounding loop of init ends at the least power of two that is large enough, within the maximum |
| TableLoad.InitialCapacityIsLeast | js/public/HashTable.h:1209-1252 | the load test stays quiet for length insertions exactly when the capacity is at least the one init picks |
| TableLoad.CompactedLog2 | js/public/HashTable.h:1523-1530 | the shrinking loop ends at a capacity that is not underloaded and holds the entries |
| TableLoad.HalvedStillFits | js/public/HashTable.h:1512-1518 | an underloaded table of half the size is not overloaded |
| HashTables.HashTable.Init | js/public/HashTable.h:1209-1252 | succeeds when the length is allowed and memory is there, with an empty table of the least capacity |
| HashTables.HashTable.Lookup | js/public/HashTable.h:1682-1687 | finds the key's entry, or a slot that is not live, without changing the table |
| HashTables.HashTable.LookupForAdd | js/public/HashTable.h:1695-1702 | the same, keeping the map and preparing the path for an add |
| HashTables.HashTable.ChangeTableSize | js/public/HashTable.h:1423-1460 | fails with nothing changed, or keeps the map, drops the tombstones and restores the load bound |
| HashTables.HashTable.CopyTable | js/public/HashTable.h:1446-1455 | a new array with exactly the mappings of the old one and no tombstone, soundly placed |
| HashTables.HashTable.CheckOverloaded | js/public/HashTable.h:1468-1483 | when it does nothing, exactly when it fails, and when it grows rather than compresses; a rebuilt table is not overloaded, and a grown one not underloaded either |
| HashTables.HashTable.CheckOverRemoved | js/public/HashTable.h:1486-1492 | cannot fail: the load bound holds again and the map is unchanged, whatever is allocated; an overloaded table loses its tombstones, grown exactly when it should and can, and another is left alone |
| HashTables.HashTable.CheckUnderloaded | js/public/HashTable.h:1512-1518 | an underloaded table is halved, and then not overloaded, when there is memory; else nothing changes |
| HashTables.HashTable.CompactIfUnderloaded | js/public/HashTable.h:1523-1534 | given memory, the largest capacity that the entries do not underload; when resized, not overloaded either |
| HashTables.HashTable.SetLive | js/public/HashTable.h:1714-1732 | one entry filled, the counts adjusted, every other slot unchanged |
| HashTables.HashTable.RemoveEntry | js/public/HashTable.h:1494-1510 | the entry's mapping goes; tombstone or free slot by its collision bit |
| HashTables.HashTable.Add | js/public/HashTable.h:1705-1739 | adds the mapping or changes nothing; refused only for lack of memory or beyond 2^29 keys; the array stays unless the table was overloaded |
| HashTables.HashTable.PutNewInfallible | js/public/HashTable.h:1585-1604 | adds without checking the load, so the bound holds after it only if it was not reached before |
| HashTables.HashTable.PutNew | js/public/HashTable.h:1754-1764 | adds the mapping or changes nothing; refused only for lack of memory or beyond 2^29 keys; a new array exactly when the table was overloaded, twice as large unless it is compressed |
| HashTables.HashTable.RelookupOrAdd | js/public/HashTable.h:1769-1781 | succeeds for a present key, else adds or leaves the map unchanged |
| HashTables.HashTable.Remove | js/public/HashTable.h:1783-1790 | removes exactly that key; the capacity is halved exactly when there is memory and the remaining entries underload the table |
| HashTables.HashTable.RekeyWithoutRehash | js/public/HashTable.h:1792-1801 | the mapping moves to the new key within the same array |
| HashTables.HashTable.RekeyAndMaybeRehash | js/public/HashTable.h:1803-1807 | the same, and the load bound holds again |
| HashTables.HashTable.Clear | js/public/HashTable.h:1607-1622 | the map is empty, the array the same |
| HashTables.HashTable.Count | js/public/HashTable.h:1654-1658 | the number of keys in the map |
| HashTables.HashTable.Fill | js/public/HashTable.h:1754-1764 | new keys put into an empty table one by one keep its array exactly when its capacity is at least what init picks for their number |
| HashTables.InitAndFill | js/public/HashTable.h:1226-1252 | init for a number of keys and that many insertions allocate once |
| HashMaps.Enum.SkipToLive | js/public/HashTable.h:939-943 | moves to the next live slot or the end and skips none |
| HashMaps.Enum.PopFront | js/public/HashTable.h:984-995 | the same from the next slot on |
| HashMaps.Enum.RemoveFront | js/public/HashTable.h:1026-1033 | removes the front entry without resizing |
| HashMaps.Enum.RekeyFront | js/public/HashTable.h:1048-1057 | rekeys the front entry without resizing, and says where it may have landed |
| HashMaps.Enum.UpdateFront | js/public/HashTable.h:1035-1043 | changes the front entry's value in place and nothing else |
| HashMaps.Enum.Finish | js/public/HashTable.h:1064-1072 | the load bound that rekeying may have passed holds again with the same map; after removals the table is not underloaded, given memory, and without rekeying its capacity is the largest such; the two allocations succeed or fail each on its own |
| HashMaps.HashMap.Put | js/public/HashTable.h:226-233 | overwrites, or adds; only adding can fail, and then nothing changes |
| HashMaps.HashMap.LookupWithDefault | js/public/HashTable.h:248-256 | the value present, or the default added, or nothing for lack of memory |
| HashMaps.HashMap.LookupForAdd | js/public/HashTable.h:138-140 | a pointer to the key's entry, or to a slot where it may be added; the map stays |
| HashMaps.HashMap.RelookupOrAdd | js/public/HashTable.h:1769-1781 | with a pointer made for the key, whatever has happened since: present, or added, or refused for lack of memory or beyond 2^29 keys |
| HashMaps.HashMap.Remove | js/public/HashTable.h:259-262 | the map without the key; the capacity halved on the same condition, and nothing changed for an absent key |
| HashMaps.HashMap.RekeyAs | js/public/HashTable.h:272-278 | the mapping moves to the new key, if there was one; else nothing changes |
| HashMaps.HashMap.RekeyIfMoved | js/public/HashTable.h:266-269 | the same, doing nothing when the key is the same |
| HashMapRuns.Perform | js/public/HashTable.h:59-290 | one operation answers and changes the contents as a plain finite map does, and refuses a new key only for lack of memory or beyond 2^29 keys |
| HashMapRuns.Run | js/public/HashTable.h:59-290 | for every client that chooses its operations by the answers so far and stays legal on them: over any run of lookups, puts, putNew, lookupWithDefault, lookupForAdd with relookupOrAdd later, removals, rekeyings, sweeping and rekeying enumerations and clears, under any allocation failures, answers and contents are those of a plain finite map |
| HashMapRuns.RetryIsLegal | js/public/HashTable.h:1754-1758 | a client that repeats a refused putNew stays legal |
| GCHashMaps.RemoveDead | js/public/GCHashTable.h:122-123 | removing a dead entry keeps what a half-done sweep guarantees |
| GCHashMaps.RekeyMoved | js/public/GCHashTable.h:124-125 | so does rekeying a moved one, although it may be met again |
| GCHashMaps.UpdateStays | js/public/GCHashTable.h:122-122 | so does the in-place update of a survivor that is not moved |
| GCHashMaps.MoverIsOriginal | js/public/GCHashTable.h:124-125 | an entry still to be rekeyed is an original one, and its new key is vacant |
| GCHashMaps.SweepEnds | js/public/GCHashTable.h:116-127 | when every entry is settled the map is the survivors, updated and under their relocated keys |
| GCHashMaps.SweepFront | js/public/GCHashTable.h:121-125 | the loop body removes, rekeys or leaves the front entry after its value has been updated in place, and settles its slot |
| GCHashMaps.Sweep | js/public/GCHashTable.h:72-80 | exactly the entries not needing sweep remain, with the values needsSweep left them, for any needsSweep; if any went and there is memory, the capacity is the largest that is not underloaded, else unchanged |
| GCHashMaps.SweepEntry | js/public/GCHashTable.h:76-79 | the loop body removes the front entry or updates its value, and no entry is met again |
| GCHashMaps.AllMet | js/public/GCHashTable.h:75-79 | at the end every entry has been met, and the map is the survivors with their updates |
| GCHashMaps.SweepAndRekey | js/public/GCHashTable.h:116-127 | exactly the survivors remain, each with the value needsSweep left it and under its relocated key; if any went and there is memory, the table is not underloaded |
| TarjanModel.PushKeepsInv | config/check_spidermonkey_style.py:542-546 | visiting a vertex keeps the invariant over stack, indices and emitted components |
| TarjanModel.SeeStacked | config/check_spidermonkey_style.py:554-556 | a successor on the stack lowers the lowlink to its index, which stays witnessed |
| TarjanModel.SeeReturned | config/check_spidermonkey_style.py:550-553 | so does one whose call has returned, by its lowlink |
| TarjanModel.StayKeepsInv | config/check_spidermonkey_style.py:559-565 | a vertex that is no root stays on the stack and reaches an open vertex below |
| TarjanModel.TopIsComponent | config/check_spidermonkey_style.py:559-563 | what a root takes off the stack is one whole strongly connected component |
| TarjanModel.TopAbsorbs | config/check_spidermonkey_style.py:559-563 | no edge leads from it except to itself and to components already emitted |
| TarjanModel.PopKeepsInv | config/check_spidermonkey_style.py:559-563 | emitting it keeps the invariant |
| TarjanModel.NothingOpen | config/check_spidermonkey_style.py:567-569 | between top-level calls the stack is empty and everything visited is emitted |
| TarjanSearch.Tarjan.StrongConnect | config/check_spidermonkey_style.py:541-565 | one call keeps the invariant, extends what was there and leaves the vertex emitted or anchored |
| TarjanSearch.Tarjan.Leave | config/check_spidermonkey_style.py:558-565 | the end of a call |
| TarjanSearch.IndexOf | config/check_spidermonkey_style.py:560-560 | the first position of an element |
| TarjanSearch.StronglyConnectedComponents | config/check_spidermonkey_style.py:534-571 | a partition of the vertices; two share a block exactly when each reaches the other; blocks in reverse topological order |
| IncludeGraphs.IncludedHeaders | config/check_spidermonkey_style.py:437-461 | exactly the known, not ignored, local headers are recorded: stated on the includes and the tree |
| IncludeGraphs.RecordedExactly | config/check_spidermonkey_style.py:437-461 | so are those of the specification |
| IncludeGraphs.IncludeGraph | config/check_spidermonkey_style.py:260-282 | each name has the recorded includes of the file read last when its last file was dealt with; an error exactly when the first file is not one that is read |
| IncludeGraphs.OwnIsRecorded | config/check_spidermonkey_style.py:273-282 | for a name whose files are read those are its own |
| IncludeGraphs.HandedOnSetsMakeNoCycle | config/check_spidermonkey_style.py:270-282 | the sets handed on to .tbl and .msg names make no cycle: there is one exactly when own includes form one |
| CycleDrawings.Drawer.Draw | config/check_spidermonkey_style.py:511-518 | the recursive drawing writes what the specification says; it terminates on cycles |
| CycleDrawings.DrawingShows | config/check_spidermonkey_style.py:511-518 | those lines show every inner edge of every member newly drawn, one line for each, below its parent |
| CycleDrawings.DrawingTargets | config/check_spidermonkey_style.py:516-518 | below each member newly drawn come its successors that are members, in sorted order, and below no other vertex any |
| CycleDrawings.DrawingOpens | config/check_spidermonkey_style.py:513-518 | a vertex drawn before has nothing below it, and only the first line for a vertex has |
| CycleDrawings.ArcsOfJoined | config/check_spidermonkey_style.py:516-518 | the lines for a successor put below v add the edge to it and its own |
| CycleDrawings.ParentArcAt | config/check_spidermonkey_style.py:512-512 | the vertex paired with a line is that of its parent, one step less indented |
| CycleDrawings.ComponentIsDrawn | config/check_spidermonkey_style.py:511-519 | drawing from one member draws the whole component |
| CycleDrawings.ComponentIsShown | config/check_spidermonkey_style.py:508-520 | an outline from the member sorted first, then a blank: the pairs of a line's parent and the line are the edges inside the component, each exactly once; below a member are its sorted successors that are members, and only below its first line |
| CycleDrawings.DrawComponent | config/check_spidermonkey_style.py:508-520 | writes that drawing, from the member sorted first |
| HeaderCycles.BigBlockIsCycle | config/check_spidermonkey_style.py:523-527 | a component of more than one vertex lies on a cycle through distinct headers |
| HeaderCycles.CycleNeedsBigBlock | config/check_spidermonkey_style.py:523-527 | without such a component there is no such cycle |
| HeaderCycles.FindCycles | config/check_spidermonkey_style.py:501-529 | one error exactly when some cycle passes through two or more headers; cut points divide the lines, in the order the components are sorted into, into one such drawing for each component of more than one header and nothing for the others |
| HeaderCycles.CheckCycles | config/check_spidermonkey_style.py:260-284 | the same for the collected include graph: one error exactly when own includes form a cycle, and the lines divided into drawings of the collected graph's components |
| Cpows.SerializeRoundTrip | js/ipc/JavaScriptShared.h:45-53 | exactly the ids with a serial of 1 to 2^47 - 1 survive the wire, in 48 bits of which the lowest is the waiver |
| Cpows.DeserializeRoundTrip | js/ipc/JavaScriptShared.h:28-53 | which wire words are ids, and that serializing gives the word back |
| WrapperOwners.WrapperOwner.constructor | js/ipc/JavaScriptShared.cpp:135-138 | empty tables, serial and reference count 1 |
| WrapperOwners.WrapperOwner.ToObjectVariant | js/ipc/WrapperOwner.cpp:1127-1164 | the handler's whole effect on the endpoint, with both insertions fallible |
| WrapperOwners.WrapperOwner.FromRemoteObject | js/ipc/WrapperOwner.cpp:1177-1218 | the CPOW held for the id, or a new one, counted; when it cannot be entered in the table, a proxy whose slots were never set |
| WrapperOwners.WrapperOwner.FromLocalObject | js/ipc/WrapperOwner.cpp:1221-1230 | the hosted object and whether it is seen through a waiver |
| WrapperOwners.WrapperOwner.RecvDropObject | js/ipc/WrapperAnswer.cpp:722-730 | the id leaves both tables |
| WrapperOwners.WrapperOwner.Drop | js/ipc/WrapperOwner.cpp:920-928 | the CPOW and its reference go, and nothing else; the peer hears of it exactly while the channel is up |
| WrapperOwners.WrapperOwner.UpdatePointer | js/ipc/WrapperOwner.cpp:931-936 | a moved proxy stays the one held for its id, and nothing else changes |
| WrapperOwners.WrapperOwner.UpdateWeakPointers | js/ipc/JavaScriptChild.cpp:55-60 | all three tables lose the collected objects |
| WrapperOwners.WrapperOwner.ActorDestroy | js/ipc/WrapperOwner.cpp:1054-1061 | the host tables are empty and the endpoint inactive; its CPOWs stay |
| CpowRuns.ExportKeepsHost | js/ipc/WrapperOwner.cpp:1142-1163 | an export keeps the host tables consistent, even if it fails half-way |
| CpowRuns.DropKeepsHost | js/ipc/WrapperAnswer.cpp:722-730 | so does a drop |
| CpowRuns.SweepKeepsHost | js/ipc/JavaScriptChild.cpp:55-60 | so does a sweep |
| CpowRuns.RemoteKeepsHolder | js/ipc/WrapperOwner.cpp:1177-1213 | receiving keeps the CPOW table and the proxies' ids inverse, and names an id the peer has let out |
| CpowRuns.CollectedStep | js/ipc/JavaScriptParent.cpp:164-169 | a collection in the parent, which may take any object its tables do not trace, keeps the system invariant |
| CpowRuns.NextKeepsInv | js/ipc/WrapperOwner.cpp:919-1230 | every step of either endpoint keeps the system invariant, in any delivery order and under any failure |
| CpowTheorems.RunKeepsInv | js/ipc/WrapperOwner.cpp:919-1230 | it holds throughout every run |
| CpowTheorems.IdResolvesToItsObject | js/ipc/WrapperAnswer.cpp:722-730 | an id once minted for an object resolves on its host, then and later, to that object under the id's waiver or to nothing |
| CpowTheorems.SerialDeterminesId | js/ipc/JavaScriptShared.h:35-39 | no two ids ever minted by one endpoint share a serial, so equality by serial agrees on the waiver |
| CpowTheorems.InverseUnlessOrphans | js/ipc/WrapperOwner.cpp:1156-1160 | the three host tables are mutually inverse exactly when every stored id has been let out |
| CpowTheorems.InverseIffNoHalfExport | js/ipc/WrapperOwner.cpp:1156-1160 | they are so throughout a run exactly when no export in it fails between its two insertions |
| CpowTheorems.DestructorFindsNoCpows | js/ipc/JavaScriptShared.cpp:155-181 | when the last reference goes the CPOW table is empty, as the destructor asserts |
| CpowTheorems.FinalizedAtOnce | js/ipc/WrapperOwner.cpp:919-928 | in the system: a finalized proxy leaves both tables with its id, and exactly on an open channel a drop for it is under way |
| CpowTheorems.MovedAtOnce | js/ipc/WrapperOwner.cpp:930-936 | in the system: a moved proxy is held for the same id, and nothing else changes |
| CpowTheorems.DestroyedAtOnce | js/ipc/WrapperOwner.cpp:1053-1061 | when its actor ends an endpoint resolves no id and traces nothing, and keeps its CPOWs; the other does not notice |
| CpowTheorems.DestroyedIdsAreGone | js/ipc/WrapperOwner.cpp:1053-1061 | in every run, no id minted before the end of its actor ever resolves again |
| CpowTheorems.DestroyedHostsNothing | js/ipc/WrapperOwner.cpp:1053-1061 | in every run, until such an endpoint exports again its tables are empty and trace nothing |
| CpowTheorems.TracedIsAlive | js/ipc/JavaScriptParent.cpp:164-169 | in every run, no object that the parent's tables trace has been collected |
| CpowTheorems.NextHalfMade | js/ipc/WrapperOwner.cpp:1191-1212 | the first half-made proxy comes from a delivery of a new id whose proxy cannot be entered in the table |
| CpowTheorems.MisreadExactlyAfterHalfMaking | js/ipc/WrapperOwner.cpp:1199-1212 | a run comes to where the collector may read a proxy's undefined owner exactly when it holds such a delivery |
| CpowLiveness.NextUsable | js/ipc/WrapperAnswer.cpp:722-730 | one step leaves every claimed id usable exactly when it does not deliver a drop for an id claimed again |
| CpowLiveness.UsableIffNoStaleDrop | js/ipc/WrapperAnswer.cpp:722-730 | throughout a run every CPOW on an open channel resolves in its host, short of collection, exactly when no drop is delivered stale |
| CpowLiveness.StaleDropHappens | js/ipc/PJavaScript.ipdl:22-24 | a run in which one is |
| CpowLiveness.DropIsFromFinalized | js/ipc/WrapperOwner.cpp:920-928 | with each message delivered at once, a drop only meets a holder that has let go |
| CpowLiveness.PromptStepUsable | js/ipc/WrapperOwner.cpp:919-1230 | so a step with prompt delivery keeps every CPOW usable |
| CpowLiveness.PromptRunKeepsUsable | js/ipc/WrapperOwner.cpp:919-1230 | and so does a whole run: with prompt delivery every CPOW resolves, short of collection |
| CpowLiveness.NextUndead | js/ipc/JavaScriptParent.cpp:164-169 | what the parent has collected makes no difference to any step |
| CpowLiveness.ChildCpowsResolve | js/ipc/JavaScriptParent.cpp:164-169 | with prompt delivery every CPOW the child holds on an open channel resolves in the parent to its object |
| CpowLiveness.RoundTrip | js/ipc/WrapperOwner.cpp:1127-1230 | from any reachable state an object sent and handed back is the same object under the same waiver |
| CpowLeaks.NextLeaks | js/ipc/WrapperOwner.cpp:1179-1201 | while every object that was stored and let out is held by the peer, on its way there or about to be dropped, one step changes that exactly when it delivers an id that cannot be made a CPOW and has no other hold |
| CpowLeaks.HeldIffNoLostDelivery | js/ipc/WrapperOwner.cpp:1179-1201 | so it is throughout a run on an open channel, in any delivery order, exactly when there is no such delivery |
| CpowLeaks.LeakHappens | js/ipc/WrapperOwner.cpp:1197-1201 | a run in which there is one |
| BreadthFirstModel.VisitKeepsInv | js/public/UbiNodeBreadthFirst.h:136-162 | a first visit keeps the invariant: paths behind visits, nothing forgotten |
| BreadthFirstModel.VisitKeepsLayers | js/public/UbiNodeBreadthFirst.h:157-162 | behind the waiting starts the queue holds the other nodes in the order of their levels |
| BreadthFirstModel.FinishedVisited | js/public/UbiNodeBreadthFirst.h:118-170 | the visited set is the marked starts and every node a path through no abandoned node leads to |
| BreadthFirstModel.FinishedDistances | js/public/UbiNodeBreadthFirst.h:30-47 | a node's level is its distance from the starts around abandoned nodes |
| BreadthFirstRuns.SeeRun | js/public/UbiNodeBreadthFirst.h:133-163 | one edge keeps what a run guarantees |
| BreadthFirstRuns.FinishRun | js/public/UbiNodeBreadthFirst.h:124-164 | so does the end of a node's edges |
| BreadthFirstRuns.SeeFirsts | js/public/UbiNodeBreadthFirst.h:137-146 | the first edges lead to the newly visited nodes, one each |
| BreadthFirstRuns.FirstExactly | js/public/UbiNodeBreadthFirst.h:138-151 | each call was told first exactly for the earliest edge into a node that was not marked |
| BreadthFirstRuns.AbandonedExactly | js/public/UbiNodeBreadthFirst.h:159-165 | a node is abandoned exactly when the handler asked for that at the earliest edge into it, and the node was not marked |
| BreadthFirstRuns.SeeQueueKept | js/public/UbiNodeBreadthFirst.h:157-162 | what is dequeued and queued is the starts and then the nodes of first edges, unless abandoned, in that order |
| BreadthFirstRuns.FirstEdgesEndShortestPaths | js/public/UbiNodeBreadthFirst.h:30-40 | however starts were added: the first edge into any node but a start ends a path shortest among those around abandoned nodes |
| BreadthFirstOrder.OrderExactly | js/public/UbiNodeBreadthFirst.h:47-49 | by distance around abandoned nodes, prior calls were for origins not further from the starts exactly when no first edge into another node comes before a first edge into a start, both with edges and neither abandoned |
| BreadthFirstOrder.DocumentedOrderExactly | js/public/UbiNodeBreadthFirst.h:47-49 | when nothing is abandoned, by distance in the graph exactly then |
| BreadthFirstOrder.SafeStartsKeepOrder | js/public/UbiNodeBreadthFirst.h:92-107 | so they were when every start that a path of one or more edges from a start reaches is marked or has no edges; by plain distance too when nothing is abandoned |
| BreadthFirstOrder.MarkedStartsKeepOrder | js/public/UbiNodeBreadthFirst.h:100-107 | in particular when all starts were added as visited |
| BreadthFirstOrder.AbandoningBreaksOrder | js/public/UbiNodeBreadthFirst.h:47-49 | a completed run from a marked start that abandons a node and calls the handler for an origin three edges away before one that is two edges away |
| BreadthFirstOrder.CallsCounted | js/public/UbiNodeBreadthFirst.h:133-151 | in a completed traversal the handler is called for every edge of a node as often as the node is dequeued |
| BreadthFirstOrder.CallsInTurn | js/public/UbiNodeBreadthFirst.h:133-134 | a node's edges are visited one right after the other, in order |
| BreadthFirstRuns.DequeuesAreBounded | js/public/UbiNodeBreadthFirst.h:118-170 | dequeues and abandoned nodes together are the starts and the newly visited nodes; which nodes are dequeued |
| BreadthFirstRuns.UnmarkedStartBreaksOrder | js/public/UbiNodeBreadthFirst.h:96-98 | a completed run from an unmarked start that is expanded again after a node further away |
| BreadthFirstOrder.UnmarkedStartOutOfOrder | js/public/UbiNodeBreadthFirst.h:47-49 | that run does not have the documented order |
| BreadthFirstSearch.Queue.PopFront | js/public/UbiNodeBreadthFirst.h:213-220 | the two-vector queue drops its first element |
| BreadthFirstSearch.Queue.Append | js/public/UbiNodeBreadthFirst.h:221-223 | appends at the end, or changes nothing |
| BreadthFirstSearch.BreadthFirst.AddStart | js/public/UbiNodeBreadthFirst.h:98-98 | queues a start without marking it |
| BreadthFirstSearch.BreadthFirst.AddStartVisited | js/public/UbiNodeBreadthFirst.h:102-107 | marks and queues a start |
| BreadthFirstSearch.BreadthFirst.CallHandler | js/public/UbiNodeBreadthFirst.h:150-152 | the handler is called with the edge and first, and what it asks for is requested |
| BreadthFirstSearch.BreadthFirst.FollowUp | js/public/UbiNodeBreadthFirst.h:154-165 | the referent of a first edge is queued exactly if the handler neither stopped the traversal nor abandoned it |
| BreadthFirstSearch.BreadthFirst.Report | js/public/UbiNodeBreadthFirst.h:150-165 | both: what became of the run is what the handler replied to this call |
| BreadthFirstSearch.BreadthFirst.TraverseEdge | js/public/UbiNodeBreadthFirst.h:136-163 | what one edge does to the run, for every handler: the run goes on with its reply, and fails, stops or goes on as it says, unless memory runs out |
| BreadthFirstSearch.BreadthFirst.TraverseEdges | js/public/UbiNodeBreadthFirst.h:132-164 | all edges of an origin, until one fails or stops |
| BreadthFirstSearch.BreadthFirst.Traverse | js/public/UbiNodeBreadthFirst.h:118-168 | terminates on cyclic graphs, and returns false exactly when memory runs out or the handler fails; a stopped traversal returns true; otherwise the run is complete; the calls logged are those made, with the replies the handler gave, and only the last may have failed or stopped it |
| HeapGraphs.LeadsStays | js/public/UbiNodePostOrder.h:148-185 | a set closed under edges, up to avoided nodes, keeps what its members lead to around them |
| PostOrderModel.NodeDoneKeepsInv | js/public/UbiNodePostOrder.h:158-163 | visiting and popping a node keeps the invariant |
| PostOrderModel.EdgeFollowedKeepsInv | js/public/UbiNodePostOrder.h:165-181 | so does taking and following an edge |
| PostOrderModel.NodesVisited | js/public/UbiNodePostOrder.h:30-34 | onNode is called for a start as often as it was added, and once for every other reachable node |
| PostOrderModel.EdgesVisited | js/public/UbiNodePostOrder.h:43-46 | onEdge is called for each edge as often as onNode for its origin |
| PostOrderModel.NodesVisitedOnce | js/public/UbiNodePostOrder.h:30-34 | once for each reachable node exactly when no start was added twice |
| PostOrderOrder.TopSettles | js/public/UbiNodePostOrder.h:158-163 | when a node is visited each successor has been, still leads back to it, or is a start waiting below |
| PostOrderOrder.TurnEnds | js/public/UbiNodePostOrder.h:154-163 | when a start is visited, all that its turn could reach has been, before any earlier start |
| PostOrderOrder.NodeDoneKeepsOrder | js/public/UbiNodePostOrder.h:158-163 | visiting keeps the order invariant |
| PostOrderOrder.EdgeFollowedKeepsOrder | js/public/UbiNodePostOrder.h:165-181 | so does following an edge |
| PostOrderOrder.PostOrderExactly | js/public/UbiNodePostOrder.h:30-34 | for different starts, post-order holds exactly when waiting starts that are met lead back |
| PostOrderOrder.SingleStartIsPostOrdered | js/public/UbiNodePostOrder.h:30-34 | with one start it holds |
| PostOrderOrder.AcyclicExactly | js/public/UbiNodePostOrder.h:30-34 | an acyclic graph comes out in reverse topological order exactly when no start leads to one added before it |
| PostOrderOrder.TwoStartsOutOfOrder | js/public/UbiNodePostOrder.h:132-136 | two starts for which it does not |
| PostOrderSearch.PostOrder.PushForTraversing | js/public/UbiNodePostOrder.h:103-109 | pushes the node with all its edges, or changes nothing |
| PostOrderSearch.PostOrder.AddStart | js/public/UbiNodePostOrder.h:132-136 | marks the start seen and pushes it, even if it was seen |
| PostOrderSearch.PostOrder.FinishNode | js/public/UbiNodePostOrder.h:158-163 | onNode is called for the top node, which is popped if that does not fail |
| PostOrderSearch.PostOrder.FollowEdge | js/public/UbiNodePostOrder.h:165-181 | onEdge is called for the last edge of the top node, which is followed if its referent is new |
| PostOrderSearch.PostOrder.Traverse | js/public/UbiNodePostOrder.h:149-185 | terminates, and returns false exactly when memory runs out or a visitor fails; on success the run is complete and, for different starts, the order invariant holds to the end; the calls are those of the run, but for one that failed |
| Conversions.ToUintWidthIsResidue | js/public/Conversions.h:306-378 | for all 64-bit patterns and widths up to 64: sign(d) * floor(abs(d)) modulo 2^w, 0 for NaN and infinities |
| Conversions.MagnitudeResidue | js/public/Conversions.h:342-374 | the shifted, masked and completed significand is floor(abs(d)) modulo 2^w |
| Conversions.HugeResidue | js/public/Conversions.h:333-335 | from the cut-off exponent on that residue is 0 |
| Conversions.SmallFloor | js/public/Conversions.h:320-323 | below exponent 0 the floor is 0, subnormals included |
| Conversions.ToIntWidthRepresents | js/public/Conversions.h:382-395 | the signed representative of the same residue, with every signed operation wrapping |
| Conversions.ConvertedFields | js/public/Conversions.h:306-395 | for every sign, exponent and fraction: both results from these alone, the unsigned one modulo 2^w and the signed one in range and congruent |
| Conversions.BeforePointTruncates | js/public/Conversions.h:295-300 | what they are congruent to is the number truncated towards zero |
| Conversions.FieldsOf | js/public/Conversions.h:311-320 | which bits are the sign, the exponent and the fraction |
| Conversions.RepresentativeIsUnique | js/public/Conversions.h:382-395 | there is only one |
| Conversions.IntermediateOverflow | js/public/Conversions.h:394-394 | the intermediate sum leaves the signed range for exactly one residue, 2^w - 1 |
| Conversions.ToUint8IsToInt8 | js/public/Conversions.h:546-550 | ToUint8 returns what ToInt8 does: the unsigned residue exactly when that is below 128 |
| Conversions.Int32AndUint32Agree | js/public/Conversions.h:401-536 | ToInt32 and ToUint32 determine each other |
| ZipArchives.SortInfos | config/MozZipFile.py:91-91 | sorting by offset keeps the records |
| ZipArchives.RemoveLayout | config/MozZipFile.py:89-89 | a record remembered for removal still overlaps no other |
| ZipArchives.ForgetLast | config/MozZipFile.py:76-86 | with the last listed record unhooked everything else ends where it began |
| ZipArchives.AppendLayout | config/MozZipFile.py:90-94 | a record written at the end becomes the highest and overlaps none |
| ZipArchives.ReplaceLayout | config/MozZipFile.py:70-86 | a record of the same name and size takes the place of a listed one |
| ZipArchives.WriteHolds | config/MozZipFile.py:90-90 | writing a record damages no other listed one |
| ZipFiles.ZipFile.FindLast | config/MozZipFile.py:62-69 | the last entry of that name |
| ZipFiles.ZipFile.Unhook | config/MozZipFile.py:60-89 | which branch is taken, where the record will go, and what is remembered for removal |
| ZipFiles.NothingMoreToRemove | config/MozZipFile.py:70-89 | nothing more is to be removed exactly for a new name, for the last record, and for one stored uncompressed in the same size |
| ZipFiles.ZipFile.Writestr | config/MozZipFile.py:37-94 | the last-written bytes of that name, stored or compressed, replaced and no other's; the highest record is listed; where the record went, that every other one stays, and exactly when nothing more is to be removed |
| ZipCompaction.KeptFits | config/MozZipFile.py:121-134 | a record's new position is not past its old one |
| ZipCompaction.KeepStep | config/MozZipFile.py:130-134 | moving one record down damages neither a moved one nor one still to be read |
| ZipCompaction.MovedLayout | config/MozZipFile.py:121-134 | the moved records overlap nowhere and have different names |
| ZipCompaction.MovedHolds | config/MozZipFile.py:121-134 | each holds the bytes it held before |
| ZipCompaction.MovedIsRepacked | config/MozZipFile.py:118-134 | they follow each other from offset 0 on, in their old order, each with the slot it had: up to where the next record began |
| ZipCompaction.KeptPlacesAre | config/MozZipFile.py:122-124 | those are the kept entries, all of them, in the order of their offsets |
| ZipCompaction.MovedContiguous | config/MozZipFile.py:118-134 | they leave no gap from offset 0 if there was none before |
| ZipFiles.SortedEntries | config/MozZipFile.py:112-114 | the entries sorted by offset are the kept and removed records, and the last is kept |
| ZipFiles.ZipFile.Compact | config/MozZipFile.py:121-134 | the move-down loop leaves every kept record at its new position |
| ZipFiles.ZipFile.Close | config/MozZipFile.py:96-137 | the listed records hold their last-written bytes; if any were removed, the file ends with them, and each has moved down with its old slot, the first to offset 0 |
| ZipFiles.ContiguousIsGapless | config/MozZipFile.py:118-134 | records without uncovered bytes start at 0 and follow each other |
| ZipFiles.OneRecordPerName | config/MozZipFile.py:37-43 | exactly one record for each written name, with its last-written bytes |
| ZipFiles.WriteAndClose | config/MozZipFile.py:37-137 | after any run of writestr on any archive and close: the last record of each name, moved down slot by slot from offset 0 if any was removed, and without gaps if the archive had none |
| RelativePaths.Cut | config/pathsub.c:160-164 | the paths part after a slash up to which they agree |
| RelativePaths.CutIsLast | config/pathsub.c:160-164 | they part after the last slash that they share, with the same characters before it |
| RelativePaths.NamesOfUps | config/pathsub.c:174-177 | how many steps up are written, an empty first component counted |
| RelativePaths.NamesOfDowns | config/pathsub.c:178-181 | the components written are those of the target |
| RelativePaths.UpsText | config/pathsub.c:174-177 | the first loop writes "../" for each name, and once more for a leading slash |
| RelativePaths.DownsText | config/pathsub.c:178-181 | the second writes each name and a slash, after two slashes for a leading one |
| RelativePaths.NamesAreNames | config/pathsub.c:65-81 | what lies between slashes has a character, and none is a slash |
| RelativePaths.NamesOfJoined | config/pathsub.c:65-81 | names that are joined so are found again |
| RelativePaths.RelateText | config/pathsub.c:165-183 | the whole output, character by character: the target and a slash when only the root is shared, else up and then down from the last shared slash |
| RelativePaths.RelatedEndsInSlash | config/pathsub.c:165-183 | whatever is written ends in a slash |
| RelativePaths.RelatedExactly | config/pathsub.c:152-184 | resolving the output against the first path gives the second exactly when no empty component of the first follows the cut |
| RelativePaths.RelatedResolves | config/pathsub.c:152-184 | for all normalized absolute paths it does, with only the root shared and with one a prefix of the other too |
| RelativePaths.NothingToWrite | config/pathsub.c:172-184 | the output is empty exactly from a path to itself, when that ends in a slash and is not the root |
| PathSub.GetComponent | config/pathsub.c:65-81 | copies one component and moves past its slashes, or reports the end |
| PathSub.FindCut | config/pathsub.c:160-164 | the two loops find the cut |
| PathSub.WriteUps | config/pathsub.c:174-177 | the first writing loop; its output is terminated, unless nothing is written, when the buffer is untouched |
| PathSub.WriteDowns | config/pathsub.c:178-181 | the second writing loop; the same |
| PathSub.RelatePaths | config/pathsub.c:152-184 | the buffer holds what the two paths alone determine: the target and a slash when only the root is shared, else the steps up and the names down from the last slash they share; it ends in a slash; its length is returned; it is terminated there, except exactly where the output is empty, when the buffer is untouched |

## Left out

- HashMapRuns.Run: what the source forbids its callers, such as `putNew` of a key that is there, is not asked for.
- HashTables.HashTable.Lookup: hash scrambling is an arbitrary function of the key to 32 bits, and matching is
  equality of keys; lookups by another type than the key are not modelled.
- HashTables.HashTable.ChangeTableSize: entries are values, so placement construction, moves and destructors of
  what is stored are not modelled; `gen` is unbounded.
- Debug-only state of the table (mutation counts, reentrancy guards, pointer generations) and its statistics;
  no pointer validity is claimed from `generation()`.
- `HashSet`, which is the table with keys only, `finish` and move construction.
- GCHashMaps.SweepAndRekey: `needsSweep` is assumed to move a surviving key once, to a key that no other entry has
  or gets, and to leave alone an entry that it has updated.
- GCHashMaps.Sweep: keys keep their identity, as `MovableCellHasher` provides.
- TarjanSearch.StronglyConnectedComponents: sets are iterated in an arbitrary order; Python's recursion limit is
  not modelled.
- IncludeGraphs.IncludedHeaders: starts from parsed include statements; the regular expressions, the ordering
  messages and the check for a file that includes itself are not modelled.
- HeaderCycles.FindCycles: `sorted` is any function that lists a set once, or a list of components in some order;
  the texts of messages are not modelled.
- WrapperOwners.WrapperOwner.FromRemoteObject: the callable, constructor and DOM flags and the object tag of a
  message are not modelled, nor a failure of the final wrapping.
- WrapperOwners.WrapperOwner.UpdatePointer: objects and proxies have stable identities; a moved proxy is a renamed
  one, and objects in the tables are found by identity, as `MovableCellHasher` provides.
- CpowRuns.NextKeepsInv: what an endpoint does after it has read the owner of a half-made proxy is undefined, and
  nothing more is said of that endpoint.
- CPOW trap forwarding, logging, timers, permissions, telemetry, and the wrapping done by the engine.
- CpowTheorems.IdResolvesToItsObject: an endpoint that runs out of its 2^47 - 1 serials crashes in the source;
  runs stop before that.
- BreadthFirstSearch.BreadthFirst.Traverse: the handler's `NodeData` and edge names are not modelled; the handler
  is any function of the calls so far, and does no more than fail, stop the traversal and abandon the referent.
- PostOrderSearch.PostOrder.Traverse: a visitor may fail at any call, but what it does is not modelled.
- Conversions.ToIntWidthRepresents: the ARM assembly variant of `ToInt32`, `ToInteger` and `TimeClip` are left out.
- ZipFiles.ZipFile.Writestr: the superclass writes one record at the current position whose header size depends on
  the name alone; write errors, the limits of the format, lock files and the central directory are not modelled.
- ZipFiles.ZipFile.Close: offsets of listed records are replaced in a rebuilt list, not through shared objects.
- PathSub.RelatePaths: buffers are taken to be long enough; `reversepath`, `ino2name` and the rest of the file work
  on the file system.
