# Zircon, verified

Zircon reads the reflection data of a running game or of a dump of one, writes it out as C++ headers,
C# files and disassembler scripts, and compares two of its own dumps. This project models the parts of
it that keep state or do arithmetic, and proves what each of them is for. `dafny verify dfyconfig.toml`
checks everything.

**Layouts.** A reflected type is compiled to declarations: padding, bits, members, opaque bytes.
`CppLayout` gives those declarations the meaning a C++ compiler gives them under `pack(1)`, and `CppSdk`
and `CppHeader` prove that the compiler then puts every member, every packed bool and every struct where
the engine had it, so that the generated `static_assert`s hold, struct by struct and for a whole package
in the order `SdkOrder` finds; and that a compiler which accepts the assertions puts every member there. `CppTypes`
says exactly, for every member, when the guard on sizes is right, and `CppSpelling` what a spelling stands for.
`DisasmLayout` and `DisasmOrder` do the same job for the disassembler scripts: a cover of the type by
slots, and an order of definition. Both orders are instances of one depth-first walk with an explicit
stack, `DepthFirst`. `Names` holds the counters that make names unique.

**The page cache.** `CachedMemorySource` is the class with its vectors of tags, counts and bytes; it is
proved against `PageCache`, the same cache as a value, and `PageCacheRuns` follows whole runs of reads,
writes and invalidations: what memory holds after any run, agreement with it while it changes only through
the cache, reading what was written, and a bound on how old a byte can be when the target changes on its own.

**The pattern scanner.** `Pattern` parses and prints patterns, and `PatternText` says which texts are patterns.
`PatternScanner` scans in overlapping chunks with a jump to the first fixed byte, and `PatternScans` compares that
with trying every offset on a readable range. `PatternHoles` does so on any range: exactly which hits are
reported when parts of it cannot be read, and exactly when none is missed. `Scanner` holds the calls, with and
without a cap, and says what they answer.

**The diff.** `DiffSignature` is the text types are compared by; `DiffNames` says for which names a type
can be read back from it, `DiffWhole` for which names two whole texts are equal for equal types only, and
`DiffMethods` does the same for functions. `DiffIndex` finds what each path stands for; `DiffPairing`
pairs members of one name by occurrence and finds renames greedily; `DiffMembers` and
`DiffFunctionsAndEnums` are the passes over properties, functions and enum values; `DiffReport` is the
whole diff. `DiffConservation` and `DiffTheorems` prove that nothing is lost, that the renames are as many
as there can be, that the report does not depend on the order in which hash containers yield their keys,
and when a dump differs from itself. `DiffFields`, `DiffExact` and `DiffCauses` say of every change in a report
what it is there for, and that nothing else is; `DiffBreaking` what is loud, and what the statistics count.
`StableSort` and `StringOrder` are what that rests on.

**Readers of address spaces.** `DumpMemorySource` and `PeImage` read loops over ranges and sections;
`ByteMap` and `Piecewise` say what a read of a partial map from addresses to bytes should deliver, and the
readers are proved to deliver exactly that, with the condition under which they do. `DumpTables` compares the
memory lists of a dump as they are written with what is read from them.

**Smaller cores.** `CSharpForest` prints types inside their outer types, once along each way inwards;
`Toml` and `Manifest` write and reread the manifest of games, and `TomlStrings` compares what is written
with the standard; `Breadcrumb` is the page a crash leaves behind.

Methods with loops are proved against functions of their inputs or of the old state, and the theorems are
about those functions. Text that only a person reads is data here, not characters.

### Assumptions

- A provider of memory answers a read with the longest readable prefix; a write it accepts lies below
  2^64, and a write it refuses changes nothing.
- `CppHeader.Supported` is what a set of structs needs for the C++ compiler to accept each of them, whatever
  else the package holds: each is the dump's record of its path and is `Clean` (its bits are distinct and 0 to
  7, nothing reaches past its end, its base is as long as the record says, and every member kept typed has a
  type whose size is the one assumed of it and elements that divide it), and its base and what it holds by
  value are in the set or in a header included, without having been reported as part of a cycle.
  `CppHeader.PackageSupported` gives the case of a whole package.
- `CSharpForest.NoCircle` is what the printing of C# types needs to end. `CSharpForest.PlacedEnds` shows that it holds
  for every dump whose entries are `CSharpNames.WellPlaced`: the package of a type whose path names no assembly
  has no ", " in its name, and the namespace is empty or begins the name.
- `DumpMemory.Disjoint` and `PeImage.Sane` say that ranges and sections do not overlap and that their ends
  do not wrap around.
- Slots of the cache are picked with a mask, and `CachedMemorySource.MaskPicksSlot` shows that this is the
  remainder for the powers of two the constructor produces.

### Where the code does something else than its documentation says

- An enum used at another width than its own is said to become a sized integer
  (`src/emit/src/CppSdk.cpp:273-282`). It never does: the guard behind it compares with the enum's own width
  again and always makes the member opaque (`CppTypes.EnumMismatchIsOpaque`).
- The guard on member sizes is said to be decisive (`src/emit/src/CppSdk.cpp:829-834`). It lets through a name
  measured at 12 bytes, which is declared with 8 (`CppTypes.WideNamesSlipThrough`); a text of 16 bytes
  when the dump measured none, which is declared with 24 (`CppTypes.UnmeasuredTextSlips`); elements that
  do not divide the size (`CppTypes.OddElementsSlip`); and a struct recorded with no bytes
  (`CppTypes.EmptyStructSlips`). `CppTypes.GuardIsExact` says for every member whether it takes the right bytes.
- `EnumUnderlying` is said to be wide enough to name the values (`src/emit/src/CppSdk.cpp:433-435`). An `int8`
  with an enumerator 200 stays an `int8` (`CppTypes.SignBitLost`); `CppTypes.EnumeratorsFit` gives the exact
  exception.
- `TomlString` writes `\uXXXX` for the other control characters, which `TomlValue` does not decode
  (`Toml.RoundTrip` gives the exact condition). It is said to write what every TOML parser reads
  (`src/app/main.cpp:937-943`); it does, unless the value holds U+007F (`TomlStrings.WrittenStandsFor`).
- Printing the C# tree is recursion without a guard (`src/emit/src/CSharp.cpp:546-593`). Three types, two of them of
  one path in different namespaces, make it go on for ever (`CSharpForest.EndlessNesting`);
  `CSharpForest.CircleNeverEnds` and `CSharpForest.EmitCSharp` say exactly when it ends.
- A type's signature is said to be equal if and only if the types are (`src/diff/src/Diff.cpp:11-13`). That is
  so while no bracket inside a name reads as the end of a name on which, some parameters and sizes later,
  another name follows (`DiffWhole.SignaturesDecide`; names such as ``List`1<System.Int32>, mscorlib`` and
  `u>[0]w` are fine, by `DiffNames.LooksCleanIsClean` and `DiffWhole.OpensNothingSettled`). For any set of
  names in which beginnings, and what follows an opening bracket, may be taken and exchanged, this is exactly
  when whole signatures decide (`DiffWhole.WholeUniqueIff`); `DiffNames.PrefixFreeIff` says exactly when a type
  can be read back whatever follows. Names of the form `u>[size],kind<w` make one parameter read as two
  (`DiffNames.BracketsConfuse`).
- A range or a section whose bytes run past the file ends a read outright, not where the bytes end
  (`DumpMemory.CutRangeReads`, `PeImage.CutSectionReads`).
- The scan is meant to skip what cannot be read (`src/core/src/PatternScanner.cpp:185-187`). An unreadable
  byte ends the scan of its range when the chunk that meets it can hold the pattern
  (`PatternScans.ScanStopsAt`, `PatternHoles.HitBehindHoleLost`); and when it does not, a whole chunk behind it
  is skipped, readable or not (`PatternScans.ScanSkipsAt`, `PatternHoles.HitInSkippedChunkLost`).
  `PatternHoles.CompleteIff` and `PatternHoles.EveryPatternIff` say exactly when nothing is missed.

## Model

| member | source | states |
|---|---|---|
| `CppSdk.EmitStruct` | src/emit/src/CppSdk.cpp:703-896 | For any record: exactly the properties that overlap are skipped, and none is if and only if nothing overlaps; each of the others has one declaration, and unless it is a bit-field one assertion of that declaration's name and its own offset, and there are no other assertions; no two declared names are equal. When the base is as long as it should be, the bits of a byte are distinct and typed members have the engine's size, every member and packed bool stands at the engine's place, every offset assertion names one member and holds, and the size assertion holds if and only if no member overruns the record. |
| `CppSdk.EmitMembers` | src/emit/src/CppSdk.cpp:775-859 | The loop over the sorted properties: what it writes is sound, and under the layout's conditions ends at the cursor with everything in place. |
| `CppSdk.EmitBits` | src/emit/src/CppSdk.cpp:788-813 | A byte of packed bools is consumed whole; each bool lands on its bit index and the byte is closed. |
| `CppSdk.EmitPadding` | src/emit/src/CppSdk.cpp:349-353 | Padding goes in when the target is ahead, and nothing else about the body changes. |
| `CppSdk.AllEmittedIffNoOverlap` | src/emit/src/CppSdk.cpp:778-785 | Every property is emitted if and only if none starts inside an earlier one or inside the base; the running cursor is compared with a definition that looks at pairs. |
| `CppSdk.FitsIffReach` | src/emit/src/CppSdk.cpp:864-864 | Everything emitted ends inside the record exactly when the final cursor does. |
| `CppSdk.AllOffsetsHold` | src/emit/src/CppSdk.cpp:890-894 | With the declarations in place and names distinct, each generated offset assertion names exactly one member, and its offset is the one asserted. |
| `CppSdk.AssertionsPlace` | src/emit/src/CppSdk.cpp:888-894 | Whatever base and sizes a compiler assumes: when it accepts the offset assertions, every member that is no bit-field stands at its property's offset. |
| `CppSdk.AssertedOnce` | src/emit/src/CppSdk.cpp:860-860 | No offset is asserted twice. |
| `CppTypes.GuardIsExact` | src/emit/src/CppSdk.cpp:819-842 | Any member takes the engine's bytes in C++ if and only if it was made opaque, or its elements divide its size and, kind by kind, what its spelling rests on holds, sizes that were not measured included. |
| `CppTypes.ExpectedIsCppSize` | src/emit/src/CppSdk.cpp:188-208 | A spelling that passed the guard, or on which the guard had nothing to compare, takes the bytes its use reports exactly when what it rests on holds. |
| `CppTypes.EnumMismatchIsOpaque` | src/emit/src/CppSdk.cpp:265-284 | An enum member keeps a type if and only if it is used at the enum's own width; at another width it is opaque. |
| `CppTypes.WideNamesSlipThrough` | src/emit/src/CppSdk.cpp:829-834 | A concrete dump in which a name measured at 12 bytes passes the guard and is laid out with 8. |
| `CppTypes.UnmeasuredTextSlips` | src/emit/src/CppSdk.cpp:819-834 | A concrete dump that measured no text: one of 16 bytes passes the guard and is laid out with 24. |
| `CppTypes.OddElementsSlip` | src/emit/src/CppSdk.cpp:819-842 | Two 16-bit elements in a member of five bytes pass the guard and take four. |
| `CppTypes.EmptyStructSlips` | src/emit/src/CppSdk.cpp:819-834 | A member of a struct recorded with no bytes passes the guard and takes one byte of the four it reports. |
| `CppSpelling.KeptIff` | src/emit/src/CppSdk.cpp:819-842 | A member keeps its type if and only if it has a spelling (its kind is known, its enum or struct is in the dump, its parameters are as many as the kind takes) whose size is not known to be another; and the spelling says kind, name and parameters, in order. |
| `CppSpelling.RenderedDenotes` | src/emit/src/CppSdk.cpp:243-344 | A spelling says the kind, the enum or struct referred to, and the parameters in their order; a parameter stands as unresolved only when it has no spelling. |
| `CppTypes.FindUnderlying` | src/emit/src/CppSdk.cpp:436-473 | The loop over the enumerators computes the width from the least and the greatest of them. |
| `CppTypes.EnumHasWidth` | src/emit/src/CppSdk.cpp:436-473 | Whatever the dump declares, the enum has one of C++'s four widths, and no less than its enumerators need. |
| `CppTypes.DeclaredStays` | src/emit/src/CppSdk.cpp:461-473 | The declared type stays whenever it holds every enumerator. |
| `CppTypes.WidenedIsLeast` | src/emit/src/CppSdk.cpp:461-473 | One taken instead is signed exactly when something is negative, and no narrower one of its signedness holds every enumerator. |
| `CppTypes.EnumeratorsFit` | src/emit/src/CppSdk.cpp:436-473 | Every 64-bit enumerator fits the type chosen, if and only if it is not the case that the declared type is signed, nothing is negative, and the greatest enumerator needs the sign bit. |
| `CppTypes.SignBitLost` | src/emit/src/CppSdk.cpp:465-465 | The concrete exception: an `int8` with the enumerator 200 stays an `int8`. |
| `CppHeader.EmitPackage` | src/emit/src/CppSdk.cpp:1390-1396 | A package: every path is defined once, by a text that describes its record, declarations and assertions; and for any set of structs that supports itself, whatever cycles were reported elsewhere, the C++ compiler accepts each struct of the set in turn: names distinct, base and what is held by value complete, all size and offset assertions true, and the engine's size. |
| `CppHeader.AcceptedPlaces` | src/emit/src/CppSdk.cpp:888-894 | In a struct that the compiler accepts every member that is no bit-field stands where the engine has it. |
| `CppHeader.PackageSupported` | src/emit/src/CppSdk.cpp:1390-1396 | A package described by the dump supports itself when no reported cycle passes through a base or something held by value, so a struct may hold an array of itself. |
| `CppHeader.DeclsHold` | src/emit/src/CppSdk.cpp:716-859 | What the declarations of a struct hold by value is among what its record needs complete. |
| `CppHeader.CleanGood` | src/emit/src/CppSdk.cpp:716-771 | With the structs it needs defined at their sizes, a clean record meets every condition of the layout theorem, flattened or derived. |
| `CppHeader.InheritsIffDerives` | src/emit/src/CppSdk.cpp:716-771 | A struct is written as derived, not flattened, if and only if its base is in the dump and no member starts inside it. |
| `CppHeader.TrustedTakes` | src/emit/src/CppSdk.cpp:819-859 | With the structs it holds by value defined, a member kept typed takes the engine's bytes. |
| `SdkOrder.TopoSort` | src/emit/src/CppSdk.cpp:367-422 | Each path is defined exactly once; what a record needs by value comes before it or the pair was reported; a reported pair lies on a cycle; and something is reported if and only if the graph has a cycle. |
| `SdkOrder.NeedsIff` | src/emit/src/CppSdk.cpp:360-390 | A record needs its base, and the structs and enums named anywhere in the type of a property, and nothing else. |
| `DisasmOrder.TopoSort` | src/emit/src/DisasmCommon.h:463-531 | Records by place: each exactly once; a base found with the size inherited, and each struct found at the size a member reports, stands before the record or the pair was reported; and there are reports if and only if there is a cycle. |
| `DisasmOrder.EdgeIs` | src/emit/src/DisasmCommon.h:479-493 | One record depends on another if and only if it embeds it whole: as a base found with the size inherited, or as a struct found at the size a member reports. |
| `DisasmOrder.MembersAre` | src/emit/src/DisasmCommon.h:479-493 | A member creates a dependency exactly when it embeds a struct of the dump at that struct's size. |
| `DepthFirst.ReportedIffCyclic` | src/emit/src/CppSdk.cpp:399-419 | For any graph: an order in which unreported edges go back, with reports only on cycles, reports something if and only if there is a cycle. |
| `DepthFirst.ReportKeeps` | src/emit/src/CppSdk.cpp:404-411 | A successor found open is on the stack, so the edge reported closes a cycle. |
| `DepthFirst.PopKeeps` | src/emit/src/CppSdk.cpp:416-418 | A node whose successors were all looked at can be finished: all of them are finished or were reported. |
| `DisasmLayout.ComputeLayout` | src/emit/src/DisasmCommon.h:316-455 | The slots tile the type from 0 to a total no smaller than the record; each property's slot stands at its offset with its size; base and property names are distinct, and a padding is named by its place; a base mismatch is reported if and only if the base is found with another size, an overrun if and only if the members end past a record of known size; every other warning is true of its property, every property is in a slot or accounted for by a warning, and none is both placed and refused. |
| `DisasmLayout.EmbeddedIsDependency` | src/emit/src/DisasmCommon.h:335-360 | A layout holds another type whole if and only if that is the record's base, found with the size inherited; and every such type is a dependency. |
| `DisasmLayout.UsableIs` | src/emit/src/DisasmCommon.h:335-360 | The inherited bytes stand as the base type if and only if the base is found with that size, and are reported to mismatch if and only if it is found with another. |
| `DisasmLayout.NamesDistinctIff` | src/emit/src/DisasmCommon.h:322-332 | Paddings never share a name, and their names are not claimed: all slot names differ if and only if no member has the name of a padding. |
| `DisasmLayout.NoPadNoClash` | src/emit/src/DisasmCommon.h:432-442 | All slot names differ when no property's sanitized name begins with `pad`, numbered names included. |
| `DisasmLayout.TiledCovers` | src/emit/src/DisasmCommon.h:312-315 | Every byte of the type lies in exactly one slot, and no other byte in any. |
| `DisasmLayout.PlacedOnce` | src/emit/src/DisasmCommon.h:425-429 | No property is in two slots. |
| `DisasmLayout.OverlapTrue` | src/emit/src/DisasmCommon.h:385-390 | A group refused for overlapping does start inside a member or the base. |
| `Names.UniqueMember` | src/emit/src/CppSdk.cpp:155-163 | The name was not taken before and is now; it is the wanted one when that is free, else the first free numbered one; the counter stops. |
| `Names.Claim` | src/emit/src/DisasmCommon.h:142-154 | A fresh name: the candidate, else with its package, else that numbered from 2, the first that is free. |
| `Names.NameTypes` | src/emit/src/DisasmCommon.h:140-168 | All distinct paths of structs and enums, jointly, get distinct names, each made for the first type of its path. |
| `Names.CounterMoves` | src/emit/src/DisasmCommon.h:150-153 | Each number tried and found taken leaves fewer taken names ahead, which is why the loop ends. |
| `Names.DecimalInjective` | src/emit/src/CppSdk.cpp:159-162 | Two numbers never print alike, so numbering never repeats a name. |
| `CachedMemorySource.CachedMemorySource.constructor` | src/core/src/CachedMemorySource.cpp:28-43 | An empty cache whose number of slots is the greatest power of two within the size asked for, at least 64 pages. |
| `CachedMemorySource.CachedMemorySource.FetchPage` | src/core/src/CachedMemorySource.cpp:96-112 | The slot of the page holds it afterwards, refilled on a miss and left alone on a hit, unreadable pages included; the bytes returned are the slot's. |
| `CachedMemorySource.CachedMemorySource.Read` | src/core/src/CachedMemorySource.cpp:45-69 | The buffer receives what the cache as a value delivers, nothing else of it changes, and the slots are those the value ends with. |
| `CachedMemorySource.CachedMemorySource.Write` | src/core/src/CachedMemorySource.cpp:78-83 | A write is taken exactly when the target accepts it and it fits the address space; then each of its bytes stands at its address, every other address holds what it held, and the pages it covers are dropped. One that is not taken changes nothing. |
| `MemorySource.WrittenPuts` | src/core/src/CachedMemorySource.cpp:78-83 | After a write each byte of the data stands at its address, and every other address holds what it held or nothing as before. |
| `CachedMemorySource.CachedMemorySource.InvalidateRange` | src/core/src/CachedMemorySource.cpp:114-121 | Exactly the slots that hold a page between first and last lose their tag. |
| `CachedMemorySource.CachedMemorySource.Invalidate` | src/core/src/CachedMemorySource.cpp:73-76 | Every slot loses its tag. |
| `CachedMemorySource.MaskPicksSlot` | src/core/src/CachedMemorySource.cpp:32-37 | Masking with a power of two less one picks the slot that dealing pages out in turn does. |
| `PageCache.ReadExact` | src/core/src/CachedMemorySource.cpp:45-69 | A read through a cache that agrees with memory delivers the longest prefix of memory seen a page at a time, and keeps the agreement. |
| `PageCache.FetchedCoherent` | src/core/src/CachedMemorySource.cpp:96-112 | Refilling a slot keeps every live slot showing its page's current bytes. |
| `PageCache.HeldPagesAnswer` | src/core/src/CachedMemorySource.cpp:96-112 | What the cache is for: a read of pages that are all held does not depend on memory and leaves the slots alone. |
| `PageCache.ReadAgain` | src/core/src/CachedMemorySource.cpp:96-112 | A read inside one page answers the same a second time, whatever memory has become. |
| `PageCacheRuns.CachedRunRefines` | src/core/src/CachedMemorySource.cpp:45-121 | In any run in which memory changes only through the cache, a read answers a prefix of what the provider would, and exactly that when each page is readable from its start. |
| `PageCacheRuns.InvisibleExactlyWhenPagesFill` | src/core/src/CachedMemorySource.cpp:58-65 | Every read answers as the provider would if and only if every page's readable bytes form a prefix of the page. |
| `PageCacheRuns.StepKeepsCoherent` | src/core/src/CachedMemorySource.cpp:73-83 | Each read, write and invalidation keeps every live slot showing its page as memory holds it. |
| `PageCacheRuns.WriteDrops` | src/core/src/CachedMemorySource.cpp:78-121 | A write that is taken drops exactly the held pages of which it writes a byte, and leaves every other slot alone. |
| `PageCacheRuns.LastDecides` | src/core/src/CachedMemorySource.cpp:78-83 | After any run an address holds what the last write taken there, or the last change of the target, left. |
| `PageCacheRuns.NoneDecides` | src/core/src/CachedMemorySource.cpp:78-83 | And what it held at the start when there was none. |
| `PageCacheRuns.ReadYourWrites` | src/core/src/CachedMemorySource.cpp:78-83 | In any run in which memory changes only through the cache, a read of what was last written answers a prefix of it, and all of it if and only if the page it starts in can be read up to there. |
| `PageCacheRuns.StalenessBound` | src/core/src/CachedMemorySource.cpp:45-121 | Against a target that changes whenever it likes: a byte delivered is a value its address held at some moment no earlier than the last Invalidate and the last successful write that covered its page. |
| `Pattern.Parse` | src/core/src/PatternScanner.cpp:26-65 | Parsing computes the positions the text spells, or nothing when it is malformed or all wildcards. |
| `PatternText.ReadIff` | src/core/src/PatternScanner.cpp:26-65 | A text is read as some positions if and only if it is made of blanks, wildcards of one mark or two, and bytes of two digits of either case, that stand for them. |
| `PatternText.PatternIff` | src/core/src/PatternScanner.cpp:54-65 | It is a pattern if and only if it is so made and holds a byte. |
| `PatternText.NibbleIs` | src/core/src/PatternScanner.cpp:13-18 | The digits 0 to 9, a to f and A to F have their values, and no other character has one. |
| `Pattern.ParseOfToString` | src/core/src/PatternScanner.cpp:96-104 | Printing a pattern and parsing the text gives the pattern back, the bytes under wildcards as zero. |
| `PatternScanner.MatchesAt` | src/core/src/PatternScanner.cpp:89-94 | On bytes that were read, it decides whether the pattern hits there in memory. |
| `PatternScanner.NextCandidate` | src/core/src/PatternScanner.cpp:194-204 | No hit lies among the places the jump to the next first fixed byte passes over. |
| `PatternScanner.ScanChunk` | src/core/src/PatternScanner.cpp:191-211 | A chunk adds exactly its hits, in order, or as many of them as the cap allows. |
| `Scanner.Scan` | src/core/src/PatternScanner.cpp:164-219 | The answer is made of one ascending list for each range, of exactly the places looked at where the pattern hits; with no cap all of it, with a cap its beginning, as long as the cap or all there is. |
| `Scanner.UncappedIff` | src/core/src/PatternScanner.cpp:207-208 | With no cap, which is the default, an address is reported if and only if it is a hit at a place looked at in some range. |
| `Scanner.UncappedReadable` | src/core/src/PatternScanner.cpp:164-219 | On readable ranges that is every place where the pattern fits and hits. |
| `Scanner.CappedIsPrefix` | src/core/src/PatternScanner.cpp:207-208 | With a cap the answer is the beginning of the uncapped one, of the cap's length or all of it. |
| `PatternScanner.HitsExact` | src/core/src/PatternScanner.cpp:194-211 | The plain scan lists an address if and only if the pattern hits there. |
| `PatternScans.ChunkedIsNaive` | src/core/src/PatternScanner.cpp:176-216 | On readable ranges the overlapping chunks find what trying every offset finds, matches across chunks included, each once. |
| `PatternScans.ReportedIsHit` | src/core/src/PatternScanner.cpp:183-214 | On any range every address reported is a hit that lies inside it. |
| `PatternScans.ReportsAscend` | src/core/src/PatternScanner.cpp:179-215 | On any range the addresses are reported in ascending order, each once. |
| `PatternScans.FirstRunComplete` | src/core/src/PatternScanner.cpp:183-214 | Whatever is unreadable further on, every hit before the first unreadable byte is reported, and first. |
| `PatternScans.ScanStopsAt` | src/core/src/PatternScanner.cpp:213-213 | When the hole ends the scan, because the chunk that meets it can hold the pattern, those hits are all the range reports. |
| `PatternScans.ScanSkipsAt` | src/core/src/PatternScanner.cpp:184-189 | When it does not, the range reports those hits and then what a scan from one chunk behind the hole reports. |
| `PatternHoles.ReportedIff` | src/core/src/PatternScanner.cpp:179-215 | Whatever holes a range has, an address is reported if and only if the pattern hits there and the place is one the scan looks at. |
| `PatternHoles.CompleteIff` | src/core/src/PatternScanner.cpp:179-215 | The chunked scan of any range finds what trying every offset finds if and only if every hit is at a place looked at. |
| `PatternHoles.CompleteWhenEnded` | src/core/src/PatternScanner.cpp:213-213 | With a first hole that ends the scan, nothing is missed if and only if the pattern hits nowhere behind it. |
| `PatternHoles.EveryPatternIff` | src/core/src/PatternScanner.cpp:179-215 | No pattern of n bytes is ever missed if and only if the scan looks at every place where n bytes can be read, a condition on what is readable alone. |
| `PatternHoles.HitBehindHoleLost` | src/core/src/PatternScanner.cpp:213-213 | A concrete memory in which a hit behind the hole that ends the scan is not reported. |
| `PatternHoles.HitInSkippedChunkLost` | src/core/src/PatternScanner.cpp:184-189 | A concrete memory in which a hit in the chunk skipped behind a hole is not reported. |
| `Scanner.ScanFirst` | src/core/src/PatternScanner.cpp:221-228 | The least hit of the first range that has one at a place looked at; nothing if and only if no range has. |
| `Scanner.ScanUnique` | src/core/src/PatternScanner.cpp:230-247 | An address if and only if it is the only hit, and of one range only. |
| `Scanner.UniqueMeansOnly` | src/core/src/PatternScanner.cpp:230-247 | In a readable range the one hit is the only place where the pattern matches. |
| `DiffSignature.WriteSignature` | src/diff/src/Diff.cpp:14-31 | The loop over the parameters writes the signature that the other members speak of. |
| `DiffNames.SignatureUnique` | src/diff/src/Diff.cpp:14-31 | Over all type trees in whose names no bracket reads as the end of the name: if two texts that begin with signatures agree, the types agree in kind, name, parameters and size at every level, and so does what follows; signatures are prefix-free. |
| `DiffNames.SignatureDecides` | src/diff/src/Diff.cpp:11-13 | Over such types, signatures are equal if and only if the types are, whatever the engine calls them. |
| `DiffNames.PrefixFreeIff` | src/diff/src/Diff.cpp:14-31 | For any set of names that holds the beginnings of its names and what follows an opening bracket in them: types over them can be read back from their signatures if and only if no bracket in a name reads as its end. |
| `DiffNames.LooksCleanIsClean` | src/diff/src/Diff.cpp:16-20 | That is so of every name that begins with no `>` and in which none with something behind it is followed by `(`, or by `[` and a digit or a sign: generic types and arrays included. |
| `DiffNames.BracketsConfuse` | src/diff/src/Diff.cpp:16-20 | For every name of the form `u>[size],kind<w` signatures do not decide: in any list, the one parameter of that name reads as two. |
| `DiffWhole.SignaturesDecide` | src/diff/src/Diff.cpp:11-13 | Over types in whose names no bracket reads as the end of a name that is followed by another, whole signatures are equal if and only if the types are. |
| `DiffWhole.WholeUniqueIff` | src/diff/src/Diff.cpp:11-31 | For any set of names that holds their beginnings and what follows an opening bracket in them, and in which that may be exchanged: whole signatures of types over them decide if and only if no bracket in a name reads so. |
| `DiffWhole.CleanSettled` | src/diff/src/Diff.cpp:16-20 | Every name that can be read back whatever follows is one of these. |
| `DiffWhole.OpensNothingSettled` | src/diff/src/Diff.cpp:16-20 | So is every name that begins with no `>` and has no `<` behind one, `u>[0]w` included. |
| `DiffSignature.KindReadBack` | src/ir/src/Model.cpp:54-92 | Every kind can be read back from its word, so no two kinds share one. |
| `DiffPairing.PartnerSymmetric` | src/diff/src/Diff.cpp:111-132 | Members that pair have one name, and each is the other's partner. |
| `DiffPairing.PartnerIff` | src/diff/src/Diff.cpp:111-132 | The partner of a member is the one of its name with as many of that name before it, when there is one. |
| `DiffPairing.PartnersInOrder` | src/diff/src/Diff.cpp:111-132 | Members that share a name pair in order, and only a tail of them is left over. |
| `DiffPairing.PairsConserved` | src/diff/src/Diff.cpp:111-132 | Old members less those unpaired are as many as new members less those unpaired. |
| `DiffPairing.GreedyFinds` | src/diff/src/Diff.cpp:197-225 | The greedy pass finds as many renames as the two sides have keys in common, counting repetitions. |
| `DiffPairing.GreedyIsMaximum` | src/diff/src/Diff.cpp:197-225 | No one-to-one matching on equal offset and signature is larger than the one it finds. |
| `DiffPairing.GreedyOneToOne` | src/diff/src/Diff.cpp:197-225 | What it finds is such a matching: keys agree and no new member is taken twice. |
| `DiffPairing.GreedyTakesFirst` | src/diff/src/Diff.cpp:200-212 | What a rename passes over, and every candidate when none is found, was taken by an earlier one. |
| `DiffMembers.Differ.Emit` | src/diff/src/Diff.cpp:68-92 | One more change raised; what is kept is what the filters leave, and the tallies count it. |
| `DiffMembers.ReportCounts` | src/diff/src/Diff.cpp:68-92 | The report holds what the filters leave of the changes raised, in order, and its tallies count them by severity and kind. |
| `DiffMembers.DiffProperties` | src/diff/src/Diff.cpp:99-236 | The pass raises the differences of the pairs, then what vanished as renamed or removed, then what appeared; and it says `unchanged` exactly when every property of either side has one of its name and occurrence on the other that agrees in offset, size, signature and flags, in bit and mask where both are bit-fields, and in default where both have one. |
| `DiffMembers.NothingLost` | src/diff/src/Diff.cpp:99-236 | It raises nothing if and only if no pair differs, nothing vanished and nothing appeared. |
| `DiffMembers.PropertiesAgreeIff` | src/diff/src/Diff.cpp:99-236 | Nothing is raised for a type's properties if and only if each has one of its name and occurrence on the other side, and all these agree. |
| `DiffFields.DifferencesAre` | src/diff/src/Diff.cpp:134-178 | Of a pair a change is raised if and only if the field it is about differs (bits where both are bit-fields, defaults where both have one), and it shows the two values. |
| `DiffFields.PropertyPassIs` | src/diff/src/Diff.cpp:99-236 | A change is raised for a type's properties if and only if a field of a pair differs, or it is the account of what came and went that the renaming gives. |
| `DiffFields.RenamingOnce` | src/diff/src/Diff.cpp:194-236 | There is only one renaming in which each property gone becomes, in order, the first new one of its offset and signature that no earlier one became. |
| `DiffConservation.PropertiesConserved` | src/diff/src/Diff.cpp:99-236 | Compared, renamed and removed are the old properties; compared, renamed and added are the new ones. |
| `DiffConservation.RenamesAreMaximum` | src/diff/src/Diff.cpp:197-225 | With rename detection on, no one-to-one matching of vanished with appeared properties on offset and signature is larger than the number of renames raised. |
| `DiffFunctionsAndEnums.DiffFunctions` | src/diff/src/Diff.cpp:238-306 | What differs between paired functions, what was removed and what was added; and it says `unchanged` exactly when every function of either side has one of its name and occurrence on the other with the same signature and flags, and the same address where both have one. |
| `DiffExact.MethodDifferencesAre` | src/diff/src/Diff.cpp:264-291 | Of a pair of functions a change is raised if and only if the signatures differ, or both have an address and these differ, or the flags differ; and it shows the two. |
| `DiffExact.FunctionPassIs` | src/diff/src/Diff.cpp:238-306 | A change is raised for a type's functions if and only if it is one of those, or a function on either side has no pair. |
| `DiffFunctionsAndEnums.FunctionsAgreeIff` | src/diff/src/Diff.cpp:238-306 | Nothing is raised for a type's functions if and only if each has one of its name and occurrence on the other side, and all these match. |
| `DiffFunctionsAndEnums.WriteMethodText` | src/diff/src/Diff.cpp:33-42 | The loop over the parameters writes the function's signature, the text that `CompareMethod` compares and `MethodTextDecides` is about. |
| `DiffMethods.MethodTextDecides` | src/diff/src/Diff.cpp:33-42 | Two functions have one signature if and only if they have as many parameters, and each passes in the same way (in, out, returned) and has the same type. |
| `DiffFunctionsAndEnums.DiffEnum` | src/diff/src/Diff.cpp:308-330 | Values compared by name, the last one of a repeated name standing for it. |
| `DiffExact.EnumPassIs` | src/diff/src/Diff.cpp:308-330 | A value is raised as removed or added if and only if the other side does not have its name, and as changed if and only if the last value of its name there is another. |
| `DiffExact.ShapeIs` | src/diff/src/Diff.cpp:509-526 | A type is raised as resized, realigned or of another base if and only if it is, with the two values shown. |
| `DiffExact.UnchangedIff` | src/diff/src/Diff.cpp:505-530 | A type on both sides counts as unchanged if and only if size, alignment and base are the same and its properties and functions agree. |
| `DiffFunctionsAndEnums.SelfRecord` | src/diff/src/Diff.cpp:99-306 | Against itself a record raises nothing, repeated names and all. |
| `DiffFunctionsAndEnums.SelfEnum` | src/diff/src/Diff.cpp:308-330 | Against itself an enum raises nothing if and only if names that repeat in it repeat their value. |
| `DiffIndex.BuildIndex` | src/diff/src/Diff.cpp:50-61 | The loops over packages, classes, structs and enums build the index that the next two members are about. |
| `DiffIndex.MentionsIff` | src/diff/src/Diff.cpp:53-53 | A package is accepted by a filter that stands anywhere in its name. |
| `DiffIndex.IndexHoldsLast` | src/diff/src/Diff.cpp:50-61 | Each path of the index stands for the last class or struct, or the last enum, that has it in a package accepted; there is no other path, and the packages are those accepted. |
| `DiffIndex.IndexIsKeyed` | src/diff/src/Diff.cpp:50-61 | Every type in the index stands under its own path. |
| `DiffReport.Diff` | src/diff/src/Diff.cpp:439-575 | The result of the diff for any order in which the hash containers may yield their keys. |
| `DiffCauses.ReportIsExact` | src/diff/src/Diff.cpp:439-575 | A change is in the report if and only if the options let it through and it has its cause in the two dumps: engine, core offsets, packages, and each type and enum by path; the report is sorted. |
| `DiffCauses.ReportOrder` | src/diff/src/Diff.cpp:568-573 | The loudest changes come first, then by path, then by member. |
| `DiffCauses.AdditionsAreInfo` | src/diff/src/Diff.cpp:74-78 | The changes an option leaves out as additions are exactly those of the lowest severity. |
| `DiffBreaking.PairIsCritical` | src/diff/src/Diff.cpp:381-419 | A change to a pair of properties is critical if and only if something is read at another place or as something else; every other one is low. |
| `DiffBreaking.MethodIsHigh` | src/diff/src/Diff.cpp:381-419 | A change to a pair of functions is high if and only if the signature or a known address differs; every other one is low. |
| `DiffBreaking.BreakingIff` | src/diff/src/Diff.cpp:433-437 | The counts say that there are breaking changes if and only if a high or critical change is in the report. |
| `DiffBreaking.StatsAre` | src/diff/src/Diff.cpp:505-530 | The statistics count the types on both sides, and those of them about which nothing differs. |
| `DiffTheorems.DiffDeterministic` | src/diff/src/Diff.cpp:479-575 | The whole result, changes, statistics and counts, is the same for every such order. |
| `DiffTheorems.PackagesApart` | src/diff/src/Diff.cpp:480-485 | The changes that are raised in hash order have pairwise distinct sort keys. |
| `DiffTheorems.CountsHold` | src/diff/src/Diff.cpp:68-92 | The counts in the result count the changes in it, kind by kind and severity by severity. |
| `DiffTheorems.SelfDiffRaises` | src/diff/src/Diff.cpp:439-575 | Against itself a dump raises nothing, before any filter, if and only if what repeats in its enums and its header offsets repeats its value. |
| `DiffTheorems.SelfDiffReport` | src/diff/src/Diff.cpp:506-530 | Against itself every type is compared and unchanged, and then the report is empty. |
| `DiffTheorems.TypeChangesAreReal` | src/diff/src/Diff.cpp:148-154 | A pair is reported to have changed type if and only if the types differ at some level, for types in whose names no bracket reads as the end of a name that is followed by another. |
| `StableSort.SortSorted` | src/diff/src/Diff.cpp:568-573 | The stable sort returns a sorted permutation. |
| `StableSort.SortStable` | src/diff/src/Diff.cpp:568-573 | Elements that tie keep their order. |
| `StableSort.SortDependsOnRuns` | src/diff/src/Diff.cpp:568-573 | What it returns depends only on the runs of ties of what it is given. |
| `StringOrder.SortedKeysOne` | src/diff/src/Diff.cpp:491-493 | Sorted, the keys of a hash container stand in one order whatever order it yields. |
| `StringOrder.StrLeIff` | src/diff/src/Diff.cpp:571-572 | A string comes before another if and only if it begins it, or has the smaller character where they first differ. |
| `DumpMemorySource.DumpSource.ParseMemory64List` | src/core/src/DumpMemorySource.cpp:297-322 | The descriptors the file holds become ranges with their bytes packed back to back, empty ones left out; an implausible count is refused and a cut table ends early. |
| `DumpTables.Memory64Back` | src/core/src/DumpMemorySource.cpp:297-322 | From a Memory64 list that was written is read a range for each descriptor that is not empty, of its start and size, its bytes behind those of all before it; and no other. |
| `DumpMemorySource.DumpSource.ParseMemoryList` | src/core/src/DumpMemorySource.cpp:324-342 | The descriptors the file holds become ranges, each with its own offset. |
| `DumpTables.MemoryListBack` | src/core/src/DumpMemorySource.cpp:324-342 | From a memory list a range for each that is not empty, at its own place; and no other. |
| `DumpTables.FieldBack` | src/core/src/DumpMemorySource.cpp:298-299 | A number written with the lowest byte first is read back. |
| `DumpMemorySource.OffsetsAreRunningSums` | src/core/src/DumpMemorySource.cpp:307-321 | The offset of each range is the base plus the sizes of the ranges before it. |
| `DumpMemorySource.PackedApart` | src/core/src/DumpMemorySource.cpp:307-321 | The bytes of two ranges never share a byte of the file. |
| `DumpMemorySource.DumpSource.SortRanges` | src/core/src/DumpMemorySource.cpp:227-228 | The ranges in the order of their starts, none lost. |
| `DumpMemorySource.DumpSource.FindRange` | src/core/src/DumpMemorySource.cpp:284-295 | The binary search returns the last range that starts at or before the address, when it reaches the address. |
| `DumpMemory.FoundIffCovered` | src/core/src/DumpMemorySource.cpp:284-295 | It finds a range if and only if one contains the address, and then the only one. |
| `DumpMemorySource.DumpSource.Read` | src/core/src/DumpMemorySource.cpp:146-166 | The buffer receives what reading turn by turn across adjacent ranges delivers, and nothing else of it changes. |
| `DumpMemory.ReadsExactlyWhenWhole` | src/core/src/DumpMemorySource.cpp:146-166 | Every read of a dump delivers exactly the longest mapped prefix if and only if no range runs from inside the file past its end. |
| `DumpMemory.ReadsSplit` | src/core/src/DumpMemorySource.cpp:146-166 | Reading a bytes and then b is reading a + b whenever the first read is complete and no range is cut. |
| `DumpMemory.CutRangeReads` | src/core/src/DumpMemorySource.cpp:160-160 | A range that runs past the file reads as nothing, though its first bytes are there. |
| `PeImage.SectionForRva` | src/core/src/PeImage.cpp:201-206 | The first section that holds the address. |
| `PeImage.ReadRva` | src/core/src/PeImage.cpp:214-262 | The buffer receives what reading turn by turn delivers, and nothing else of it changes. |
| `PeImage.ReadsExactlyWhenWhole` | src/core/src/PeImage.cpp:214-262 | Every read delivers the longest defined prefix of header byte, else section byte, else zero tail, if and only if no readable raw data runs past the file. |
| `PeImage.ReadsSplit` | src/core/src/PeImage.cpp:214-262 | Reading a bytes and then b is reading a + b whenever the first read is complete and no readable raw data runs past the file. |
| `PeImage.CutSectionReads` | src/core/src/PeImage.cpp:248-248 | From the first byte of its raw data that the headers do not hide on, a section whose readable raw data runs past the file reads as nothing, though that byte is there. |
| `CSharpNames.SplitDots` | src/emit/src/CSharp.cpp:170-186 | The loop splits at the dots that are in no argument list. |
| `CSharpNames.SplitJoins` | src/emit/src/CSharp.cpp:170-186 | The parts put together again are the text. |
| `CSharpNames.OuterIs` | src/emit/src/CSharp.cpp:665-684 | The outer type is what stands in front of the last dot that is in no argument list, in the namespace and the assembly; without such a dot there is none. |
| `CSharpNames.OuterIsShorter` | src/emit/src/CSharp.cpp:665-684 | The name of the outer type of a well-placed entry is strictly shorter than the entry's own, the assembly left aside. |
| `CSharpNames.CarriedIsWellPlaced` | src/emit/src/CSharp.cpp:665-684 | A type whose path carries its assembly is well placed whatever its package is called, as long as its namespace begins its name. |
| `CSharpForest.FindNesting` | src/emit/src/CSharp.cpp:656-690 | The loop over the entries finds, for every path, the entries nested in it in order, and which entries are nested at all. |
| `CSharpForest.WriteType` | src/emit/src/CSharp.cpp:569-593 | The printing recursion ends, and the block of a type prints exactly the ways inwards that go on from it, each once. |
| `CSharpForest.EmitCSharp` | src/emit/src/CSharp.cpp:603-760 | For any dump in which no way inwards comes back to an entry: along each way inwards from a type nested in none the last type is printed inside the others, exactly once, and nothing else is; repeated paths and any namespaces included. |
| `CSharpForest.CircleNeverEnds` | src/emit/src/CSharp.cpp:546-593 | In any other dump there are ways inwards longer than any length, so the printing has no end. |
| `CSharpForest.EndlessNesting` | src/emit/src/CSharp.cpp:665-690 | A concrete dump of three types in which one does come back. |
| `CSharpForest.PlacedEnds` | src/emit/src/CSharp.cpp:665-690 | None does when every entry is well placed. |
| `CSharpForest.PrintedIff` | src/emit/src/CSharp.cpp:546-593 | An entry is printed if and only if a way inwards ends in it. |
| `CSharpForest.PrintedOnce` | src/emit/src/CSharp.cpp:546-593 | Nothing is printed twice when no two types that are no enums share a path. |
| `CSharpForest.AllPrintedIffHoused` | src/emit/src/CSharp.cpp:572-575 | Of well-placed entries all are printed if and only if each that is nested is nested in some type that is no enum. |
| `Toml.TomlString` | src/app/main.cpp:944-969 | The value is written as a literal string when it can be, else as a basic string with escapes. |
| `Toml.TomlValue` | src/app/main.cpp:973-1001 | The loop reads what stands between the first quote and the last of its kind, escapes undone in basic strings only. |
| `Toml.RoundTrip` | src/app/main.cpp:944-1001 | A value written and read comes back as it was if and only if its only control characters are the line feed, the carriage return and the tab. |
| `TomlStrings.WrittenStandsFor` | src/app/main.cpp:937-969 | What is written is a single-line string by the "String" section of TOML v1.0.0 that stands for the value, if and only if the value holds no U+007F. |
| `TomlStrings.EscapedBack` | src/app/main.cpp:953-966 | By that section each character's code stands for the character, in front of anything; U+007F left raw may not stand there at all. |
| `Manifest.WriteManifest` | src/app/main.cpp:1050-1075 | The text of the manifest: comments, then each game, as comments when it cannot be run. |
| `Manifest.CommentedIsThere` | src/app/main.cpp:1059-1075 | A game that cannot be run is there line by line behind `# `: with those taken away it is read. |
| `Manifest.ReadManifest` | src/app/main.cpp:1094-1135 | The entries a manifest's text stands for, line by line. |
| `Manifest.HandWritten` | src/app/main.cpp:1104-1133 | A line of key and value sets the key of the last game, whatever blanks are around line and key. |
| `Manifest.ManifestReadBack` | src/app/main.cpp:1050-1135 | What is read of a manifest that was written is the games that can be run, in order, each field as it rereads. |
| `Manifest.ManifestRoundTrip` | src/app/main.cpp:1050-1135 | They come back with the names, runtimes, executables and metadata they had if and only if no such field holds another control character than \n, \r and \t. |
| `Breadcrumb.CrashBreadcrumb.Note` | src/core/src/Breadcrumb.cpp:51-60 | The page is NUL-terminated inside its size and holds as much of the note as fits; the bytes behind it stay as they were. |
| `Breadcrumb.CrashBreadcrumb.Append` | src/core/src/Breadcrumb.cpp:62-76 | The text is followed by a newline and as much of the line as fits, or stays as it was when there is no room; a terminated page stays terminated. |
| `Breadcrumb.TextIsWritten` | src/core/src/Breadcrumb.cpp:51-76 | After any notes and appends the text depends on the last note and the lines after it alone. |
| `Breadcrumb.WrittenIsPrefix` | src/core/src/Breadcrumb.cpp:51-76 | It is a prefix of the note and the lines joined by newlines, shorter than the page, and all of them unless the page is full. |
| `Breadcrumb.ReadBreadcrumb` | src/core/src/Breadcrumb.cpp:94-112 | Reading cuts at the first NUL and drops the newlines at the end; nothing left is nothing read. |
| `Breadcrumb.KeyIsNote` | src/core/src/Breadcrumb.cpp:94-117 | The key read back is the note itself, for any note that is not empty, fits, and holds no CR or LF, whatever lines followed. |
| `Breadcrumb.KeyAndPhase` | src/core/src/Breadcrumb.cpp:114-122 | Key and phase are the whole text, split at its first newline. |
| `Breadcrumb.TrimBreadcrumbFile` | src/core/src/Breadcrumb.cpp:124-134 | The file holds the contents without the blanks at their end and one newline, or is left alone when that is nothing. |
| `Breadcrumb.TrimKeeps` | src/core/src/Breadcrumb.cpp:94-134 | Trimming to what was read and reading again gives the same if and only if the text does not end in a space or is nothing but spaces and newlines. |
| `Breadcrumb.KeySurvivesTrim` | src/core/src/Breadcrumb.cpp:94-134 | After trimming something is still read, and its key is the one read before if and only if the text is nothing but spaces and newlines, or is not so from the last character of its key on. |

## Left out

- Processes, modules, regions, file mapping, exception handlers, user interface, network and command line: foreign calls or plumbing.
- The exact text of headers, C# files, scripts and reports, with its alignment and comments: declarations, blocks and changes are data.
- Names before they are made unique: the sanitizer is a function parameter, and the candidate names of types are part of the input.
- `Pad_` and `BitPad_` members have no names in the model, so a reflected member of such a name is not seen to clash with one.
- 32-bit overflow of offsets and sizes in the layouts: they are unbounded integers.
- Parameter structs, function declarations and bodies, and the measuring of opaque sizes in the C++ emitter: sizes come with the index.
- CppSdk.SortByKey: properties that tie under the sort key stand in any order, because `std::sort` leaves it open.
- SdkOrder.TopoSort: the order among independent types is left open; the source visits the needs of a type in the order of their paths.
- CppHeader.EmitPackage: the conditions on a set of structs are sufficient; they are not shown to be necessary.
- PeImage.ReadsExactlyWhenWhole: assumes that no sum of the section tables passes 32 bits and that sections are disjoint; parsing the headers is not modelled.
- PageCacheRuns.StalenessBound: a write counts for the whole pages it covers, as the cache drops whole pages.
- The ranges to scan: they are given; how they are chosen from modules and regions is not modelled, and base, size and chunk together stay below 2^64.
- Pattern.Parse: the different error messages are one failure; patterns from a byte string and a mask are not modelled.
- DumpMemorySource.DumpSource.FindRange: the end of a range is an unbounded sum, as are file offsets, where the source adds in 64 bits.
- The streams of a minidump other than its memory lists, and the protection of its regions.
- The order of equal starts when ranges are sorted: `std::sort` leaves it open.
- The formatted detail of a change: what it shows before and after is data, and its explanation is not modelled.
- DiffWhole.WholeUniqueIff: exact for sets of names in which names may be exchanged behind an opening bracket; for a set without that only `DiffWhole.SignaturesDecide` and the shape of `DiffNames.BracketsConfuse` are given, because whether one name collides then depends on which others there are.
- TomlStrings.WrittenStandsFor: a string is a sequence of Unicode characters, where the source writes the bytes it is given.
- DiffReport.Diff: the orders of the hash containers are a parameter, and so is the signature function, for which `DiffSignature.Signature` stands.
- CSharpForest.EmitCSharp: the text of a block and the names of the files are not modelled; a block records which entry it prints.
- Manifest.WriteManifest: the comments at the top and the build numbers are given; the translation of line ends in text mode is not modelled.
- Breadcrumb.CrashBreadcrumb.Note: the size of the page is that of the array, 1024 in the source; creating, mapping and removing the file are not modelled.
