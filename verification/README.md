# Models of libbpf's BTF, CO-RE and loader algorithms, and of VTL's frame and checksum code

The project models the parts of the repository that carry real algorithmic weight and proves what they are for:

- **BTF deduplication** (`Btf`, `Fields`, `RecordCompare`, `Forest`/`Equivalence`, `DedupState`, `BtfDedup`, `Compaction`,
  `RecordMoves`, `StringDedup`, `WholeDedup`). The class `BtfDedup.Dedup` has the state of `struct btf_dedup`: the
  records, the canonical map, the hypothetical map with its list, and the candidate table, which is the hash map of
  this project. A record splits into its references and its shape; the meaning of a type id is its unfolding to every
  depth, or agreement field by field (`Fields`, where the two are proved the same). `WholeDedup.Dedup` is
  `btf__dedup`: with FWD resolution off, a successful call preserves the meaning of every id, names read as strings;
  with it on, the output is a quotient of the input: records are moved with their references renumbered, and every id
  ends at a record of its name and kind.
- **BTF to C** (`DumpOrder`, `Declarator`, `DeclPrinter`). The ordering of definitions is a depth-first walk with three
  states; the declaration printer works on a shared stack of ids. Printed declarations are read back by the declarator
  grammar of section 6.7.6 of ISO/IEC 9899:2011.
- **CO-RE relocation** (`CoreReloc`, `CoreSelf`, `CoreDuplicate`, `CoreLeftover`, `ResolveSize`): parsing an access
  spec, searching members with speculation and undo, the agreement of the two, and when a spec matches itself.
- **Loader** (`RingReader`, `Linking`): the wrap-around perf ring reader refines a linear reader; linking `.text`
  preserves calls.
- **Hash map** (`HashMap`): chained buckets with doubling refine a finite map, and a multimap under APPEND.
- **Line info** (`LineInfo`): segmentation of JITed line records and lookup.
- **AF_XDP frames** (`Frames`): the free stack, the fill ring and the RX ring as a state machine with the kernel as
  environment; the class `Frames.Socket` is the code, and its effect is a run of that machine.
- **Checksums and hashes** (`Checksum`, `JHash`, `JHashAnswer`). `Basics` holds what several modules share.

Where a promise of the source does not hold for all inputs, the model keeps the code's behaviour, shows an input for
which the promise fails, and states when it holds:

- the remark at `lib/libbpf/src/hashmap.h:77-79` that find returns the value appended last does not survive a growth:
  `HashMap.DocumentedOrderFails`, `HashMap.FindReturnsLastAppended`;
- a modifier on a function is printed in the wrong place: `Declarator.ModifiedFunctionMisread`, `Declarator.RoundTripIff`,
  `Declarator.ReadsItselfIff`;
- a typedef of a function type on a cycle can be queued twice: `DumpOrder.TypedefQueuedTwice`; typedefs that are on no
  cycle or lead to a definition without a function type in between are not: `DumpOrder.QueuedOnce`;
- after a failed call definitions can come out of order: `DumpOrder.FailedCallBreaksOrder`; after successful ones they
  cannot: `DumpOrder.DefinedBefore`, `DumpOrder.Dump.DumpType`;
- a duplicate member name of another type spoils the search: `CoreDuplicate.DuplicateNamesBreakMatching`,
  `CoreReloc.MatchExact`, `CoreReloc.MatchAgreesWithParse`, `CoreLeftover.LeftoverDescribesField`;
- a spec is not always recovered from the image it was parsed from: `CoreSelf.SelfMatchIff`;
- line records of the last function are not checked: `LineInfo.LastSegmentUnchecked`, `LineInfo.UnsortedLookupMisses`,
  `LineInfo.LookupRightIff`;
- with too few frames for the rings the allocator runs dry: `Frames.ShortRun`; for exactly which sizes it does, over
  all sizes of memory, rings and batches: `Frames.SupplyIff`;
- long buffers and updates to all zeros have wrong checksums: `Checksum.LongBufferFails`, `Checksum.ExactIff`,
  `Checksum.UpdateToZeroFails`, `Checksum.UpdateIff`.

Conventions. Graphs are sequences of records with id 0 for void and all references in range. A `depth` is any layering
of the reference types, which exists when every reference cycle passes through a struct or union. Ghost `rank`s witness
that following the canonical map ends. Machine integers are written out with explicit wrap-around where it matters.

## Model

| member | source | states |
|---|---|---|
| HashMap.HashBitsInRange | lib/libbpf/src/hashmap.h:20-24 | the bucket of a key is below the capacity |
| HashMap.HashBitsHalve | lib/libbpf/src/hashmap.h:20-24 | one more bit sends old bucket b only to buckets 2b and 2b+1 |
| HashMap.Rehash | lib/libbpf/src/hashmap.c:88-116 | each new chain is the reversed selection of one old chain |
| HashMap.RehashChain | lib/libbpf/src/hashmap.c:105-108 | moving one old chain extends only its two target chains, entry by entry at the head |
| HashMap.RehashedPlaced | lib/libbpf/src/hashmap.c:88-116 | after doubling every entry is in the bucket of its key |
| HashMap.RehashedValues | lib/libbpf/src/hashmap.c:88-116 | doubling reverses the values under each key and loses none |
| HashMap.HashMap.Grow | lib/libbpf/src/hashmap.c:88-116 | capacity doubles to the next power of two, values under each key are reversed, size unchanged; without memory nothing changes |
| HashMap.HashMap.FindEntry | lib/libbpf/src/hashmap.c:118-140 | finds the first entry of the key in its chain, exactly when the key has a value |
| HashMap.HashMap.Insert | lib/libbpf/src/hashmap.c:142-192 | exact return code, size, capacity and values of every key for every strategy, hit or miss, growth and failed allocation; EEXIST and ENOENT change nothing |
| HashMap.HashMap.Overwrite | lib/libbpf/src/hashmap.c:163-166 | replacing the found entry changes the value of that key only |
| HashMap.HashMap.PushFront | lib/libbpf/src/hashmap.c:182-189 | the new value becomes the first of its key; size grows by one |
| HashMap.HashMap.AppendValue | lib/libbpf/src/hashmap.h:121-125 | the value is added under its key and nothing else, exactly when both allocations succeed |
| HashMap.HashMap.Find | lib/libbpf/src/hashmap.c:194-206 | returns the first value of the key, or none exactly when there is none |
| HashMap.HashMap.Delete | lib/libbpf/src/hashmap.c:208-228 | removes and returns the first value of the key; other keys unchanged |
| HashMap.HashMap.KeyEntries | lib/libbpf/src/hashmap.h:162-168 | the iteration yields exactly the values of the key, in chain order |
| HashMap.Perform | lib/libbpf/src/hashmap.c:142-228 | one operation on the structure is one operation on the finite map it represents |
| HashMap.Replay | lib/libbpf/src/hashmap.c:142-228 | every history of ADD, SET, UPDATE, delete, find and iteration gives the replies of a plain finite map |
| HashMap.Act | lib/libbpf/src/hashmap.c:142-228 | every operation, APPEND and failed allocations included, has the exact effect and reply of the multimap with its growth rule |
| HashMap.ReplayAll | lib/libbpf/src/hashmap.c:142-228 | every history of all operations and strategies refines that multimap |
| HashMap.AppendStep | lib/libbpf/src/hashmap.c:156-191 | the exact chain after an APPEND: pushed on the old chain, turned around if the index grew |
| HashMap.AppendsAreMultimap | lib/libbpf/src/hashmap.h:74-79 | after any APPEND history, whatever allocations fail, each key holds exactly the values accepted for it |
| HashMap.InsertionsKeepLeast | lib/libbpf/src/hashmap.c:82-116 | while entries are only inserted, in whatever strategy and however often growing fails, the capacity is the least power of two, from 4 on, not below four thirds of the entries |
| HashMap.TurnedSince | lib/libbpf/src/hashmap.c:88-116 | a chain that nothing changes is turned around once per growth |
| HashMap.DocumentedOrderFails | lib/libbpf/src/hashmap.h:77-79 | after a growth, find does not return the value appended last |
| HashMap.FindReturnsLastAppended | lib/libbpf/src/hashmap.h:77-79 | find returns the value appended last exactly when the index grew an even number of times since, or the ends of the chain agree |
| Btf.WithRefsLaws | lib/libbpf/src/btf.c:2760-2851 | rewriting references changes exactly the references of a record |
| Btf.ShapeAndRefs | lib/libbpf/src/btf.c:2760-2851 | a record is determined by its shape and its references |
| Fields.ShapeIff | lib/libbpf/src/btf.c:2760-2851 | shapes are equal exactly when all fields but the type ids are, kind by kind |
| Fields.PairedIff | lib/libbpf/src/btf.c:2760-2851 | the references of two records are paired exactly as the ids in their fields: type word, element and index, members, return type and parameters, section variables |
| Fields.UnfoldIff | lib/libbpf/src/btf.c:2760-2851 | unfolding alike to a depth is agreeing in all fields to that depth |
| RecordCompare.EqualRecordIff | lib/libbpf/src/btf.c:1735-1962 | the field-by-field comparisons hold exactly for equal records |
| RecordCompare.CompareMeaning | lib/libbpf/src/btf.c:2247-2350 | the check goes on to the references exactly for equal shapes; with resolution off it accepts leaf kinds exactly when the records are equal |
| RecordCompare.VerdictIff | lib/libbpf/src/btf.c:2247-2350 | every verdict of the local check, resolution on or off, in kinds and fields |
| RecordCompare.FwdVerdict | lib/libbpf/src/btf.c:2257-2272 | with resolution on, a FWD and a composite are equivalent exactly when the names agree and the composite is a union iff kflag is set, in both argument orders |
| RecordCompare.EnumVerdict | lib/libbpf/src/btf.c:1799-1812 | an enum and an enum without values exactly when name, kflag and size agree, two full enums when they are equal |
| RecordCompare.ShallowHash | lib/libbpf/src/btf.c:1819-1864 | structs that are shallow equal have the same hash |
| RecordCompare.CompatHash | lib/libbpf/src/btf.c:1766-1817 | compatible enums have the same hash, members left out |
| Forest.LinkToRoot | lib/libbpf/src/btf.c:2100-2125 | linking an id to another root keeps the map free of cycles |
| Forest.LinkLeaf | lib/libbpf/src/btf.c:2068-2069 | so does linking an id that nothing points to |
| Forest.LinkRoots | lib/libbpf/src/btf.c:2389-2433 | linking two roots redirects exactly the ids below the linked one |
| Equivalence.FreshWitness | lib/libbpf/src/btf.c:2226-2361 | from a cleared map, the pairs of a positive answer form a bisimulation |
| Equivalence.RelatedUnfold | lib/libbpf/src/btf.c:2135-2225 | ids related by a bisimulation unfold alike to every depth, on cyclic graphs too |
| Equivalence.RelatedSame | lib/libbpf/src/btf.c:2135-2225 | so they mean the same, with FWD resolution off |
| Equivalence.RelatedMatches | lib/libbpf/src/btf.c:2226-2361 | resolution on or off, what a bisimulation relates matches field by field at every depth, up to a FWD standing for a composite of its name and kind and an enum for its forward declaration |
| DedupState.Promote | lib/libbpf/src/btf.c:2068-2072 | an id without an equal one becomes canonical and the invariant of all passes holds |
| DedupState.Redirect | lib/libbpf/src/btf.c:2389-2433 | mapping an id to a root of the same meaning keeps the invariant; settled canonical ids are excluded |
| DedupState.WriteRef | lib/libbpf/src/btf.c:2565-2632 | replacing a reference by its representative keeps the invariant and the meaning |
| DedupState.KinRoot | lib/libbpf/src/btf.c:2389-2433 | in either mode the representative of an id may stand for it: same fields, or a FWD's announced composite, a matching enum, or a composite of the name and kind |
| DedupState.RootsAkin | lib/libbpf/src/btf.c:2389-2433 | ids that the check accepts as a pair have representatives of one name and, FWDs counted as what they announce, one kind |
| DedupState.KeptWrite | lib/libbpf/src/btf.c:2565-2632 | a reference that is replaced leads to the representative it led to before |
| BtfDedup.Dedup.constructor | lib/libbpf/src/btf.c:1386-1445 | initial map: void, VAR and DATASEC are canonical, all else unprocessed; empty hypothetical map |
| BtfDedup.Dedup.ResolveTypeId | lib/libbpf/src/btf.c:2100-2105 | following the map terminates at the root |
| BtfDedup.Dedup.ResolveFwdId | lib/libbpf/src/btf.c:2111-2125 | a FWD goes to its root if that is no FWD; all else stays |
| BtfDedup.Dedup.HypotMapAdd | lib/libbpf/src/btf.c:1328-1343 | records one pair, and notes it for clearing |
| BtfDedup.Dedup.ClearHypotMap | lib/libbpf/src/btf.c:1345-1352 | clearing restores the empty map exactly |
| BtfDedup.Dedup.IsEquiv | lib/libbpf/src/btf.c:2226-2361 | a positive answer leaves only justified pairs; a negative one means no bisimulation extending the map relates the ids; from a cleared map a positive answer means the ids match field by field at every depth; the walk terminates because each level records a fresh canonical id |
| BtfDedup.Dedup.EquivEach | lib/libbpf/src/btf.c:2301-2358 | the children of a pair are compared in order, with the same two directions |
| BtfDedup.Dedup.TableAdd | lib/libbpf/src/btf.c:1322-1326 | the candidate table holds exactly the listed ids under their hashes |
| BtfDedup.Dedup.Candidates | lib/libbpf/src/btf.c:1319-1320 | yields listed ids only, and every listed id with the same hash |
| BtfDedup.Dedup.FindEqual | lib/libbpf/src/btf.c:2017-2062 | finds a listed id with an equal record, or none exists |
| BtfDedup.Dedup.EnumCandidates | lib/libbpf/src/btf.c:2029-2050 | equal enums are found; with resolution on, a forward declaration takes a compatible enum if one is listed, and a full enum takes over every compatible forward declaration |
| BtfDedup.Dedup.PrimType | lib/libbpf/src/btf.c:1992-2073 | one step maps a primitive type and keeps the invariant; what is mapped stays mapped and only this id is newly mapped |
| BtfDedup.Dedup.PrimTypes | lib/libbpf/src/btf.c:2075-2088 | afterwards every primitive type is mapped |
| BtfDedup.Dedup.MergePair | lib/libbpf/src/btf.c:2389-2433 | a FWD and its definition, or an unmapped and a mapped composite, get one representative, never the FWD; other pairs change nothing; every write links one root to another, and the linked one is a FWD or was unmapped |
| BtfDedup.Dedup.MergeHypotMap | lib/libbpf/src/btf.c:2389-2433 | all recorded pairs are merged in order; canonical records other than FWDs stay canonical |
| BtfDedup.Dedup.StructType | lib/libbpf/src/btf.c:2457-2511 | a struct is mapped to a listed struct that is shallow equal and equivalent, or becomes canonical when none is |
| BtfDedup.Dedup.AdoptStruct | lib/libbpf/src/btf.c:2501-2507 | the merge happens before the struct is mapped to its candidate, and the invariant holds |
| BtfDedup.Dedup.StructTypes | lib/libbpf/src/btf.c:2513-2526 | afterwards every struct and union is mapped; no failure when nothing refers to variables |
| BtfDedup.Dedup.RefType | lib/libbpf/src/btf.c:2549-2655 | returns a canonical id of the same meaning, its references canonical; a loop is reported only if the reference types have no layering |
| BtfDedup.Dedup.RefTypes | lib/libbpf/src/btf.c:2657-2669 | afterwards everything is mapped |
| BtfDedup.Dedup.CompactTypes | lib/libbpf/src/btf.c:2683-2731 | the j-th output record is the j-th canonical input record, and the new ids are noted |
| BtfDedup.Dedup.RemapTypeId | lib/libbpf/src/btf.c:2739-2748 | the final id of a type id, or an error if it has none |
| BtfDedup.Dedup.RemapType | lib/libbpf/src/btf.c:2760-2851 | every reference of a record becomes its final id, all else stays |
| BtfDedup.Dedup.RemapTypes | lib/libbpf/src/btf.c:2853-2863 | all records are remapped; no failure when every id has a final id |
| BtfDedup.ChooseCanonical | lib/libbpf/src/btf.c:1240-1254 | after the three passes everything is mapped to canonical ids under the invariant |
| BtfDedup.Outcome | lib/libbpf/src/btf.c:1224-1269 | the remapped records form a graph without duplicates, every output id has an input id, and meaning is kept with resolution off |
| BtfDedup.OutputMoved | lib/libbpf/src/btf.c:2683-2863 | the record of a canonical id is moved to its final id with every reference replaced by the final id of what it was, in either mode |
| BtfDedup.OutputStands | lib/libbpf/src/btf.c:2683-2863 | every input id ends at a record that may stand for its own, in either mode |
| BtfDedup.DedupTypes | lib/libbpf/src/btf.c:1224-1269 | the type passes: output well formed and duplicate free, meaning preserved at every depth with resolution off, success on layered graphs |
| Compaction.Renumbering | lib/libbpf/src/btf.c:2683-2731 | the renumbering is an order-preserving bijection from canonical ids to 1..k |
| Compaction.FinalRecord | lib/libbpf/src/btf.c:2739-2851 | the record an input id ends up with is its representative's, references final |
| Compaction.OutputGraph | lib/libbpf/src/btf.c:2853-2863 | the output is a well-formed type table |
| Compaction.MeaningPreserved | lib/libbpf/src/btf.c:1224-1269 | with resolution off, input id and final id unfold alike to every depth |
| Compaction.OutputDistinct | lib/libbpf/src/btf.c:2549-2655 | no two output records of an exactly compared kind are equal |
| Compaction.CompactedRefs | lib/libbpf/src/btf.c:2739-2748 | after a successful reference pass no remap can fail |
| RecordMoves.MoveDown | lib/libbpf/src/btf.c:2706-2706 | moving words down copies them exactly and touches nothing beyond |
| RecordMoves.RoomBelow | lib/libbpf/src/btf.c:2698-2711 | the write position never passes the record read next |
| RecordMoves.CompactRecords | lib/libbpf/src/btf.c:2695-2711 | in place, every kept record arrives word for word, in order, back to back, the index points to it, and nothing behind is touched |
| RecordMoves.CompactSections | lib/libbpf/src/btf.c:2683-2731 | the records, and then the string section moved down behind them, arrive unchanged |
| RecordMoves.MemoryFollowsTable | lib/libbpf/src/btf.c:2683-2731 | memory afterwards holds, in order, exactly the records of the compacted table |
| StringDedup.BuildIndex | lib/libbpf/src/btf.c:1625-1645 | one entry per string of the section, in order |
| StringDedup.Search | lib/libbpf/src/btf.c:1556-1563 | binary search finds the entry of an offset exactly when it is listed |
| StringDedup.MarkUsed | lib/libbpf/src/btf.c:1565-1580 | fails exactly when a reference is no string start; marks exactly the referenced strings |
| StringDedup.Group | lib/libbpf/src/btf.c:1660-1702 | each referenced text is written once, unreferenced ones not at all, and every entry learns where its text went |
| StringDedup.RemapOffsets | lib/libbpf/src/btf.c:1582-1597 | every reference is rewritten to an offset that reads the same |
| StringDedup.DedupStrings | lib/libbpf/src/btf.c:1610-1723 | every reference reads the same string, offset 0 is the empty string, strings are distinct and referenced, the section does not grow; fails exactly on a bad reference |
| StringDedup.EqualOffsetsIffEqualStrings | lib/libbpf/src/btf.c:1610-1723 | new offsets are equal exactly when the strings are |
| WholeDedup.RenamedMeaning | lib/libbpf/src/btf.c:1451-1535 | rewriting all name offsets keeps the unfolding with names read as strings |
| WholeDedup.Dedup | lib/libbpf/src/btf.c:1224-1269 | the whole call. Resolution off: every input id and its final id agree in every field at every depth, each record, enumerator, member and parameter name reading as the same string. Either mode: every output record is an input record with its ids renumbered, every id ends at a record of its name and kind, and the new section holds only referenced strings. A call succeeds only if every name in a record and every other reference is a string start, and then it does on layered graphs |
| WholeDedup.AllNamesIff | lib/libbpf/src/btf.c:1451-1510 | the names that are visited are those of records, enumerators, members and parameters |
| WholeDedup.StartsIff | lib/libbpf/src/btf.c:1565-1580 | marking succeeds exactly when all of them are string starts |
| WholeDedup.RecordRenamed | lib/libbpf/src/btf.c:1582-1597 | rewriting the name offsets changes every name and nothing else |
| WholeDedup.FieldsComposed | lib/libbpf/src/btf.c:1224-1269 | both passes together keep every field at every depth |
| DumpOrder.Dump.OrderType | lib/libbpf/src/btf_dump.c:322-458 | the exact result, states and queue of the walk; from any state, left by failed calls too; after successful calls a strong result means the type can be used by value after what is queued, a weak one behind a pointer; never fails when containment is well founded; only what the type refers to is touched |
| DumpOrder.Dump.OrderLeaf | lib/libbpf/src/btf_dump.c:396-404 | leaf kinds: enums and FWDs with names are queued once |
| DumpOrder.Dump.OrderReference | lib/libbpf/src/btf_dump.c:406-428 | pointers, arrays, modifiers and typedefs follow their target; typedefs are queued after it |
| DumpOrder.Dump.OrderPrototype | lib/libbpf/src/btf_dump.c:430-448 | a prototype orders its return and parameter types |
| DumpOrder.Dump.OrderComposite | lib/libbpf/src/btf_dump.c:367-395 | a struct is queued after its members, or fails on a cycle by value |
| DumpOrder.Dump.DumpType | lib/libbpf/src/btf_dump.c:195-227 | the exact outcome of a call in any state, also after failed calls; success appends the queue to the log of definitions and keeps the ordering invariant; no failure when containment is well founded; an id out of range is an error |
| DumpOrder.DefinedBefore | lib/libbpf/src/btf_dump.c:248-321 | whatever a queued struct, union or typedef uses by value, through any path of arrays, modifiers, typedefs and anonymous composites, was queued before it |
| DumpOrder.RequestedDefined | lib/libbpf/src/btf_dump.c:195-227 | after a successful call the type asked for and whatever a declaration with it uses by value are queued |
| DumpOrder.QueuedOnce | lib/libbpf/src/btf_dump.c:229-246 | over all calls, failed ones included: no struct, union, enum or FWD is queued twice, nor a typedef that no reference leads back to, nor one whose way through pointers, arrays, modifiers and typedefs meets no function type |
| DumpOrder.LockedVisit | lib/libbpf/src/btf_dump.c:346-353 | while a composite is open, visiting a type that leads straight to it fails or is weak and changes nothing |
| DumpOrder.LockedKept | lib/libbpf/src/btf_dump.c:322-458 | whatever else is walked meanwhile leaves such types unqueued |
| DumpOrder.TypedefStillOpen | lib/libbpf/src/btf_dump.c:406-424 | so a typedef that leads straight to a definition is not queued from inside the walk of its target, recursive structs included |
| DumpOrder.WalkMore | lib/libbpf/src/btf_dump.c:322-458 | the depth bound of the walk changes no walk that ends |
| DumpOrder.TypedefQueuedTwice | lib/libbpf/src/btf_dump.c:406-424 | a typedef of a function type on a cycle is queued twice |
| DumpOrder.FailedCallBreaksOrder | lib/libbpf/src/btf_dump.c:359-362 | a call that fails marks a pointer as ordered; the next call succeeds and queues a struct without the one it contains |
| Declarator.SpacedChain | lib/libbpf/src/btf_dump.c:1065-1236 | no two words of a printed declaration run together |
| Declarator.StripChain | lib/libbpf/src/btf_dump.c:1065-1236 | without its spaces, the printed text is the flat declarator of the chain |
| Declarator.MeaningOfDcl | lib/libbpf/src/btf_dump.c:915-955 | read inside out, the declarator means the chain again, array modifiers dropped |
| Declarator.ReadFlat | lib/libbpf/src/btf_dump.c:915-955 | the C grammar reads the flat declarator back |
| Declarator.RoundTrip | lib/libbpf/src/btf_dump.c:1065-1236 | a printed declaration declares the name with the type, for all chains of pointers, modifiers, arrays and functions without modified functions |
| Declarator.RoundTripIff | lib/libbpf/src/btf_dump.c:1184-1225 | the round trip holds exactly when no modifier stands on a function |
| Declarator.NormIsIdentity | lib/libbpf/src/btf_dump.c:1146-1163 | the printer drops nothing exactly when no array carries a modifier |
| Declarator.ReadsItselfIff | lib/libbpf/src/btf_dump.c:1065-1236 | the text reads back as the very type exactly when no modifier stands on a function or an array |
| Declarator.ModifiedFunctionMisread | lib/libbpf/src/btf_dump.c:1189-1196 | a const function returning a pointer prints as a function returning a const pointer |
| DeclPrinter.ChainByKind | lib/libbpf/src/btf_dump.c:956-1005 | the chain of a type, kind by kind: its type word's chain and const, volatile, restrict or a pointer; the element's chain and the dimension; the return type's chain and the parameters by name and type, a last void one as ellipsis; a base for all else |
| DeclPrinter.WordsByKind | lib/libbpf/src/btf_dump.c:1031-1055 | the words written for the modifiers on top of a frame: const, volatile or restrict by the kind of each record, the top first, down to the first other record |
| DeclPrinter.Printer.PushChain | lib/libbpf/src/btf_dump.c:963-1005 | the pushed ids, popped, are the chain of the type |
| DeclPrinter.Printer.EmitTypeDecl | lib/libbpf/src/btf_dump.c:956-1029 | writes the declaration of the type's chain (the one of ChainByKind) and leaves the shared stack as it was |
| DeclPrinter.Printer.EmitTypeChain | lib/libbpf/src/btf_dump.c:1065-1236 | writes exactly what its stack frame stands for |
| DeclPrinter.Printer.WriteMods | lib/libbpf/src/btf_dump.c:1031-1055 | writes the words of WordsByKind for the modifiers on top of the frame and pops them |
| DeclPrinter.Printer.WriteName | lib/libbpf/src/btf_dump.c:1057-1063 | a name is separated unless a pointer precedes it |
| DeclPrinter.Printer.WriteArray | lib/libbpf/src/btf_dump.c:1140-1183 | array case: modifiers skipped, parentheses unless multi-dimensional |
| DeclPrinter.Printer.WriteFunction | lib/libbpf/src/btf_dump.c:1184-1225 | function case with its declarator and parameter list |
| DeclPrinter.Printer.WriteParams | lib/libbpf/src/btf_dump.c:1204-1224 | parameters in order, a single void parameter as none, a last void one as an ellipsis |
| DeclPrinter.DeclarationReads | lib/libbpf/src/btf_dump.c:915-1029 | the declaration written for a type id reads back as that type, array modifiers dropped, exactly when no function in it is modified, and as that very type exactly when no array is either |
| DeclPrinter.CleanChain | lib/libbpf/src/btf_dump.c:915-955 | which is so for every id when no modifier record refers to a prototype |
| ResolveSize.Resolve | lib/libbpf/src/btf.c:229-280 | the exact result: product of all dimensions and the base size, or the error that applies |
| ResolveSize.SizeIsExact | lib/libbpf/src/btf.c:229-280 | non-negative exactly when the chain ends in a sized type and no leading product nor the total exceeds 2^32-1 |
| ResolveSize.MoreSteps | lib/libbpf/src/btf.c:227-241 | a chain that ends within the limit gives the same size for any larger limit |
| ResolveSize.TooDeep | lib/libbpf/src/btf.c:227-241 | a chain of as many modifiers and arrays as there are steps has no size |
| ResolveSize.NoSizeBeyond | lib/libbpf/src/btf.c:227-241 | 32 modifiers, typedefs, variables and arrays in a row have no size |
| ResolveSize.SizeByKind | lib/libbpf/src/btf.c:229-262 | what each kind contributes: INT, STRUCT, UNION, ENUM and DATASEC their size word, a pointer 8, typedefs, modifiers and VAR what they refer to, an array its dimension, all else no size |
| ResolveSize.SizeOfKind | lib/libbpf/src/btf.c:229-280 | so the size of a type, kind by kind, with the error codes |
| CoreReloc.SkipModsAndTypedefs | lib/libbpf/src/libbpf-old.c:1018-1033 | the loop ends at the first type that is neither modifier nor typedef |
| CoreReloc.SkipByKind | lib/libbpf/src/libbpf-old.c:1018-1033 | const, volatile, restrict and typedef are skipped, nothing else |
| CoreReloc.FieldsAreCompat | lib/libbpf/src/libbpf-old.c:2566-2604 | the loop decides the compatibility that CompatByKind states |
| CoreReloc.CompatByKind | lib/libbpf/src/libbpf-old.c:2566-2604 | two types are compatible exactly when both are composites, FWDs or pointers, enums of one size, integers of one size and width at bit 0, or arrays of compatible elements |
| CoreReloc.ParseMember | lib/libbpf/src/libbpf-old.c:2405-2437 | a member index is accepted exactly when it is in range and the member is no bitfield, on a byte boundary, its name readable; and what it leads to |
| CoreReloc.ParseIndex | lib/libbpf/src/libbpf-old.c:2438-2459 | an array index is accepted exactly when it is in range and the element has a size; other kinds end the parse |
| CoreReloc.ParseLength | lib/libbpf/src/libbpf-old.c:2374-2388 | between one and 64 indices |
| CoreReloc.SpecBuffer.Parse | lib/libbpf/src/libbpf-old.c:2358-2462 | parse result for all indices: accessors, raw indices and offset modulo 2^32, or the error |
| CoreReloc.SpecBuffer.Descend | lib/libbpf/src/libbpf-old.c:2405-2459 | one index, negative ones included: member or array element, with its checks |
| CoreReloc.SpecBuffer.FindMember | lib/libbpf/src/libbpf-old.c:2622-2697 | the recursive search over all members, including the missing undo after an incompatible one |
| CoreReloc.SpecBuffer.TryMember | lib/libbpf/src/libbpf-old.c:2648-2694 | one member: skipped, descended into, taken, or undone, with the state each leaves |
| CoreReloc.SpecBuffer.Match | lib/libbpf/src/libbpf-old.c:2703-2769 | the matching loop over local accessors, whose outcome SelfMatchIff and MatchAgreesWithParse describe |
| CoreReloc.SpecBuffer.MatchAccessor | lib/libbpf/src/libbpf-old.c:2718-2766 | one accessor, with the size truncated to int |
| CoreReloc.MatchClean | lib/libbpf/src/libbpf-old.c:2648-2694 | up to the first member of the name speculation is undone exactly; if it is compatible the spec is the old one plus the path to it |
| CoreReloc.MatchSeen | lib/libbpf/src/libbpf-old.c:2622-2697 | a search that succeeds, from any state, has seen a compatible member of the name |
| CoreReloc.FoundCompatible | lib/libbpf/src/libbpf-old.c:2674-2690 | what a search that succeeds found is compatible |
| CoreReloc.MatchExact | lib/libbpf/src/libbpf-old.c:2674-2690 | a search that succeeds extends the spec by the path to the first member of the name exactly when that member is compatible |
| CoreReloc.MatchUnique | lib/libbpf/src/libbpf-old.c:2622-2697 | with unique names a successful search extends the spec by the path to the member |
| CoreReloc.FindParses | lib/libbpf/src/libbpf-old.c:2405-2437 | parsing the path to a found member gives its accessor and offset |
| CoreReloc.ParsedIsLocal | lib/libbpf/src/libbpf-old.c:2358-2462 | accessors that come from parsing are fit for matching |
| CoreReloc.MatchAgreesWithParse | lib/libbpf/src/libbpf-old.c:2703-2769 | if the first member of each name in search order is compatible, parsing the target raw spec gives exactly the target spec, one accessor per local one with the same name or index |
| CoreReloc.UniqueMatchAgrees | lib/libbpf/src/libbpf-old.c:2703-2769 | unique member names satisfy that condition |
| CoreReloc.RelocationAgrees | lib/libbpf/src/libbpf-old.c:2358-2769 | from any local spec that parses to the target, with unique names |
| CoreSelf.RelocatableIff | lib/libbpf/src/libbpf-old.c:2566-2604 | a type is compatible with itself exactly when it is, behind modifiers, typedefs and arrays, a composite, FWD, pointer, enum or integer at bit 0 |
| CoreSelf.FindIff | lib/libbpf/src/libbpf-old.c:2648-2672 | with unique names the search finds a member that is there exactly when no nesting of members without names beyond the room left for indices comes first |
| CoreSelf.SelfMatchIff | lib/libbpf/src/libbpf-old.c:2358-2769 | matched against its own image and root, a spec gives itself, indices, accessors and offset, exactly when every named member on the way has a relocatable type, members without names lead on to one with a name, sizes are below 2 GiB and no search runs out of room |
| CoreLeftover.LeftoverDescribesField | lib/libbpf/src/libbpf-old.c:2687-2689 | an incompatible member of the name comes first, and the raw spec it leaves still parses to the field asked for, so the condition is not necessary for a whole spec |
| CoreDuplicate.DuplicateNamesBreakMatching | lib/libbpf/src/libbpf-old.c:2687-2689 | with a duplicate name of another type in an anonymous member, matching succeeds with a raw spec that does not parse |
| RingReader.HeaderLayout | lib/libbpf/src/libbpf-old.c:5256-5258 | a record is four bytes of type, two of misc and two of size, low byte first, the size counting the header |
| RingReader.DecodeBytes | lib/libbpf/src/libbpf-old.c:5255-5283 | the linear reader recovers the records from their bytes |
| RingReader.MaskIsRemainder | lib/libbpf/src/libbpf-old.c:5256-5256 | masking with a power of two less one is the remainder |
| RingReader.CutHolds | lib/libbpf/src/libbpf-old.c:5259-5277 | the one or two pieces cut from the ring are the piece of the stream |
| RingReader.RingRecord | lib/libbpf/src/libbpf-old.c:5256-5277 | at the masked counter lies the whole next record, its header in one piece |
| RingReader.Reader.Fetch | lib/libbpf/src/libbpf-old.c:5259-5278 | a wrapped record is joined in the copy buffer; the ring is unchanged; fails only without memory for a wrapped record that does not fit |
| RingReader.Reader.FetchNext | lib/libbpf/src/libbpf-old.c:5256-5277 | the record at the counter is delivered whole with its size; failure means it wraps and there was no memory |
| RingReader.Reader.ReadSimple | lib/libbpf/src/libbpf-old.c:5242-5288 | the callback gets exactly a prefix of the records in order, up to the first refusal or a wrapped record without memory, and the tail advances by exactly their sizes, modulo 2^64 |
| Linking.Program.RelocText | lib/libbpf/src/libbpf-old.c:3187-3238 | the first call appends .text, after memory and .BTF.ext are checked; every call adds main count less its position to its immediate, in 32 bits |
| Linking.Program.RelocMap | lib/libbpf/src/libbpf-old.c:3259-3280 | a map load gets its source register and descriptor, a data load also its offset; out of range is an error |
| Linking.Program.Relocate | lib/libbpf/src/libbpf-old.c:3240-3292 | the exact outcome for every list of relocations, and for those that touch different slots: success exactly when calls can be linked, .text there once, every relocation applied to its slots, nothing else changed |
| Linking.SeparateLinks | lib/libbpf/src/libbpf-old.c:3258-3287 | the same on values, after each relocation |
| Linking.CallsLand | lib/libbpf/src/libbpf-old.c:3233-3237 | a call with immediate k lands on the copy of text[k+1] |
| Linking.TextKeepsTargets | lib/libbpf/src/libbpf-old.c:3226-3231 | calls inside .text keep their targets in the copy |
| LineInfo.Linfo.Dissect | lib/libbpf/src/bpf_prog_linfo.c:22-86 | succeeds exactly when every segment but the last is in order and within its length; then the segments start at the functions' addresses and tile all records |
| LineInfo.Linfo.LfindAddrFunc | lib/libbpf/src/bpf_prog_linfo.c:180-216 | the last record of the leading run not above the address, after the skipped ones; none exactly when there is none |
| LineInfo.Linfo.Lfind | lib/libbpf/src/bpf_prog_linfo.c:218-246 | the same over instruction offsets |
| LineInfo.LookupIsGreatest | lib/libbpf/src/bpf_prog_linfo.c:206-215 | in a sorted segment the record found is the one with the greatest key not above the query |
| LineInfo.LookupRightIff | lib/libbpf/src/bpf_prog_linfo.c:206-215 | with different keys every query is answered rightly exactly when the segment is sorted |
| LineInfo.EqualKeysHideDisorder | lib/libbpf/src/bpf_prog_linfo.c:206-215 | with equal keys an unsorted segment can answer every query rightly |
| LineInfo.LastSegmentUnchecked | lib/libbpf/src/bpf_prog_linfo.c:46-48 | records out of order in the last segment are accepted |
| LineInfo.UnsortedLookupMisses | lib/libbpf/src/bpf_prog_linfo.c:206-215 | and there the lookup can miss the greatest address |
| Frames.Socket.constructor | src/common/xsk_user_helpers.c:103-123 | all frames, one for each block of memory (AllExactly), on the stack, then the fill ring stuffed from its top (PoppedAt) |
| Frames.AllExactly | src/common/xsk_user_helpers.c:103-106 | the set-up makes exactly one frame of every 4096-byte block |
| Frames.PoppedAt | src/common/xsk_user_helpers.c:118-120 | popping takes the top of the stack first and gives invalid frames once it is empty |
| Frames.NothingCached | lib/libbpf/src/xsk.h:85-102 | the producer side caches no free entries from one call to the next, so a call that takes packets looks at the ring again |
| Frames.FramesApart | util/af_xdp/af_xdp_user.c:201-244 | in every state of every run: each entry of every place is invalid or the address of a 4096-byte block inside the memory, entries at two places do not overlap, and every block is somewhere |
| Frames.Socket.Alloc | src/common/xsk_user_helpers.c:42-52 | pops a frame, or gives the invalid one from an empty stack |
| Frames.Socket.Free | src/common/xsk_user_helpers.c:54-60 | pushes a frame; the asserted room is the precondition |
| Frames.Socket.HandleReceive | util/af_xdp/af_xdp_user.c:201-244 | the exact new rings and stack of a call, which is a run of the protocol, keeps its invariant and never fails the assertion in Free; a call that takes packets leaves the fill ring full if there were free frames |
| Frames.Socket.Refill | util/af_xdp/af_xdp_user.c:211-230 | as many entries as the fill ring has free are filled from the top of the stack |
| Frames.Socket.StageAll | util/af_xdp/af_xdp_user.c:225-227 | the reserved entries get the frames popped from the stack, in that order |
| Frames.Socket.ProcessAll | src/adaptor/adaptor_receive.c:169-181 | the batch leaves the RX ring, its frames pushed on the stack or kept |
| Frames.StepKeeps | util/af_xdp/af_xdp_user.c:201-244 | every step, the kernel's included, conserves frames and ring counters; with enough frames the supply lasts |
| Frames.FreeingHandlerIsSafe | util/af_xdp/af_xdp_user.c:201-244 | with sufficient frames in the sense of SupplyIff: in every state of every run the frames are partitioned, the assertion holds and no invalid frame is handed out |
| Frames.NoFrameTwice | src/adaptor/adaptor_receive.c:103-187 | with either handler no frame is in two places, and the keeping one delivers at most as many packets as there are frames |
| Frames.CallRun | util/af_xdp/af_xdp_user.c:201-244 | a call during which the kernel drains the fill ring leaves the fill ring full, and as many more frames in the rings as it has entries, less the packets taken |
| Frames.ShortRun | util/af_xdp/af_xdp_user.c:201-244 | with fewer frames some run of repeated calls plans more entries than it has frames |
| Frames.PeakHolds | util/af_xdp/af_xdp_user.c:201-244 | with batches larger than the fill ring the frames in the two rings, counted as after the call under way, never exceed a peak, however many calls and kernel steps |
| Frames.SupplyIff | util/af_xdp/af_xdp_user.c:211-230 | for all sizes of memory, rings and batches: never short of frames, in any run, exactly when the two rings fit all frames or, for large batches, the fill ring and the peak do |
| Frames.OneEntryIff | util/af_xdp/af_xdp_user.c:211-230 | with a fill ring of at most one entry only that ring has to fit |
| Frames.DefaultsSuffice | src/common/xsk_user_helpers.h:14-16 | the configured sizes, 4096 frames of 4096 bytes, rings of 2048 and batches of 64, have enough frames |
| Checksum.Checksum | src/common/util.c:81-110 | for every length, the complement of the folded 32-bit sum |
| Checksum.SumWords | src/common/util.c:84-97 | the total of the words and the left-over byte, modulo 2^32 |
| Checksum.FoldAll | src/common/util.c:99-104 | the one's complement sum, in at most two rounds |
| Checksum.TwoRounds | src/common/util.c:99-104 | two rounds fold any 32-bit sum |
| Checksum.ExactUpTo | src/common/util.c:81-110 | up to 131074 bytes nothing overflows and the result is that of RFC 1071 |
| Checksum.ExactIff | src/common/util.c:84-92 | beyond, it is right exactly when the total fits 32 bits |
| Checksum.LongBufferFails | src/common/util.c:84-92 | 131076 bytes of ones give a wrong checksum, 131074 a right one |
| Checksum.StoredChecksumVerifies | src/adaptor/adaptor_send.c:222-223 | a buffer with its checksum stored in the zeroed field checks to zero |
| Checksum.AddIsOnes | util/af_xdp/af_xdp_user.c:117-123 | addition with the carry added back is addition modulo 65535, zero only for zeros |
| Checksum.CsumReplace2 | util/af_xdp/af_xdp_user.c:130-133 | writes the updated checksum to its cell and nothing else |
| Checksum.UpdateIff | util/af_xdp/af_xdp_user.c:125-133 | the update equals recomputation exactly when the changed data is not all zeros |
| Checksum.UpdateToZeroFails | util/af_xdp/af_xdp_user.c:130-133 | a single word updated from one to zero: 0 instead of 0xffff |
| Checksum.UpdateIsRecompute | util/af_xdp/af_xdp_user.c:125-133 | the same on buffers, against what the code computes |
| JHash.RolRotates | src/headers/jhash.h:25-28 | the shift-and-or form moves the high bits below the low ones |
| JHash.MixBijective | src/headers/jhash.h:33-41 | mixing is a bijection on triples of words |
| JHash.FinalBijective | src/headers/jhash.h:43-52 | so is finishing |
| JHash.NoNewCollisions | src/headers/jhash.h:33-52 | states collide after mixing or finishing exactly when they were equal |
| JHash.Jhash2 | src/headers/jhash.h:114-142 | the loop computes the word hash |
| JHash.Jhash | src/headers/jhash.h:68-105 | the loop and the fall-through switch compute the byte hash |
| JHash.AddTail | src/headers/jhash.h:86-98 | four cases of the switch add the bytes that are there |
| JHash.BytesHashLikeWords | src/headers/jhash.h:68-142 | the hash of the little-endian bytes of words is the hash of the words |
| JHash.FixedForms | src/headers/jhash.h:146-170 | the one-, two- and three-word forms are the word hash |
| JHashAnswer.PublishedAnswer | src/headers/jhash.h:28-105 | the hash of "Four score and seven years ago" with initial value 0 is 0x17770551, the answer published for hashlittle |

## Left out

- Syscall wrappers, ELF walking, netlink, kernel probing, map creation and program loading: calls into the kernel with no result to reason about.
- Dashboards, launcher, option parsing, sockets, threads, cgroup lookup and the eBPF programs themselves: plumbing and short header checks.
- Meaning of types under FWD resolution, to every depth over a whole run: the source itself says that resolution by name can be wrong (`lib/libbpf/src/btf.c:2176-2182`), and structs of one name may then be merged through a FWD of it; for that mode each answer of the equivalence check is described (`Equivalence.RelatedMatches`), and the output as a quotient by name and kind (`WholeDedup.Dedup`).
- BTF byte layout and malformed records: type tables are sequences of well-formed records with references in range; `RecordMoves` treats the in-place move of record words.
- Chains of the hash map are sequences of entries in a bucket rather than linked nodes; allocation failure is a flag of each operation, and the allocations of dedup's own arrays and tables succeed.
- The two library sorts of the string pass are functions that return some sorted permutation.
- Struct bodies: padding, bit fields, alignment, and the inlined bodies of anonymous composites; a base type is one token of the printed declaration.
- Name clashes: `name___N` suffixes and typedef names that shadow parameter names.
- Order of definitions after a failed call of the dumper: not guaranteed (`DumpOrder.FailedCallBreaksOrder`); the exact outcome and single queueing are stated there too.
- DumpOrder.QueuedOnce: for a typedef that is on a cycle and leads through a function type no iff is given; whether it is queued twice depends on where the walk enters the cycle and on what earlier calls ordered, not on the types alone (the typedef of `DumpOrder.TypedefQueuedTwice` is queued once if its struct is ordered first, `DumpOrder.LoopStruct`).
- Text of access strings: a raw spec is its sequence of integers. A negative member index, which the source lets through to read in front of the member array, ends the parse with a code of its own.
- Candidate search by essential name and instruction patching in CO-RE relocation.
- Function and line information when linking: only the result codes of those calls enter.
- The kernel's side of AF_XDP: it moves one entry at a time from the fill ring to the RX ring and holds none in between; transmission is never used by these handlers (`if (false)` in `process_packet`), so the completion ring stays empty.
- Byte order: words are read low byte first.
- `hashmap__clear`: it leaves the bucket pointer set and is treated as the end of a map's life.
- CoreReloc.MatchAgreesWithParse: the condition is exact for each search (`CoreReloc.MatchExact`); for a whole spec it is sufficient, since a spec left over from an incompatible member can happen to describe the right field (`CoreLeftover.LeftoverDescribesField`).
- LineInfo.LookupRightIff: takes pairwise different keys, since equal ones can hide disorder.
- Linking.Program.Relocate: takes relocations whose instruction and map exist, which the source does not check.
