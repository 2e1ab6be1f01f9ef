# Verified model of the dynld dynamic linker

dynld loads and links macOS executables. This project models the parts of it whose correctness does not follow
from reading one function, and proves what they promise. Five components are covered.

- **Memory allocator** (`HeapState`, `HeapInvariant`, `HeapSafety`, `Allocator`, `AllocatorThreads`). Memory
  is a map of 64-bit words. The free list is a chain of real nodes in freed words, and class `Allocator` walks
  and rewrites it there. A ledger of ghost fields (nodes, live blocks, large blocks, chunks, waste) lets the
  invariant say that every address of a chunk lies in exactly one piece. That single fact gives separation,
  framing and conservation over every run. `AllocatorThreads` cuts the locked closures into small steps and
  interleaves any number of threads.
- **Exports trie** (`Uleb128`, `ExportsTrie`, `TrieFormat`, `TrieSerializer`). The walk over bytes is proved
  to look symbols up in the abstract prefix tree the bytes encode. `LoadCommands` covers the walks that turn a
  library ordinal into a path, collect re-exports, and find the trie.
- **Chained fixups** (`ChainedPointers`, `FixupParser`, `FixupRoundTrip`, `FixupWriter`, `Patches`,
  `PageStarts`, `FixupApply`, `FixupPipeline`). The parser is inverse to a reference writer of whole images,
  exactly where the other import formats allow it, and applying fixups in place, in one pass or in two, leaves
  every slot at its value and nothing else changed.
- **Shared cache and re-exports** (`SharedCache`, `CacheWitnesses`, `Reexports`, `CacheLinking`). The cache is
  attached and indexed from the bytes of memory, and two routes of address translation agree. The result of
  the depth-budgeted search over a possibly cyclic graph of libraries is characterized exactly, errors
  included. `CacheLinking` puts the components together, down to the pointer a bound slot holds.
- **Thread-local terminators** (`TlvTerminators`, `TlvImages`). A terminator is a finite tree: what it
  registers when it runs. Lists grow, run and are freed in place.

`Prelude`, `Bits`, `Bytes`, `CStrings` and `Extents` hold shared definitions. Bit operations are defined on
unbounded naturals digit by digit, and 64-bit wrap-around is written out as `% U64`. `Outcome` separates
errors that are reported (`Err`) from Rust panics (`Panic`). Structures are read field by field, back to back, as the derived readers do, even
where the type has padding.

What the code does differently from its documentation, or from what one would expect, is stated exactly:

- an allocation whose alignment exceeds a page is not aligned on the large path (`HeapSafety.LargeAlignment`);
- page starts marked as having no fixups, or several chains, are taken for offsets (`PageStarts.MarkedPages`,
  with `UnusedPageParsed` and `ListedPageParsed`);
- the name offset of an import of format 2 is taken from its addend, and of format 3 from the padding before
  its addend (`FixupRoundTrip.AddendImportRead` and `WideImportRead`, with `AddendMisread` and
  `PaddingMisread`);
- weak, upward and lazy dependencies are not counted in library ordinals (`LoadCommands.OrdinalsAsDocumented`,
  with `WeakShiftsOrdinals`);
- a larger re-export budget can change the address found (`Reexports.PathStable`, with `AddressMayChange`);
- the slide is measured from an assumed base (`SharedCache.RoutesAgreeOnlyThen`, with
  `CacheWitnesses.BaseMatters`), and the index of a subcache is cut to a byte (`SharedCache.LocateIndex`, with
  `CacheWitnesses.IndexWraps`).

## Model

| member | source | states |
|---|---|---|
| `HeapInvariant.AlignUpMeaning` | src/allocator.rs:192-196 | for a power of two, the mask expression is the least multiple not below the address, less than one alignment away |
| `HeapInvariant.NormalSizeMeaning` | src/allocator.rs:104-117 | the normalized size is the least multiple of 8 that holds the request and a free node |
| `HeapInvariant.NormalAlignMeaning` | src/allocator.rs:104-117 | the normalized alignment is a power of two whose multiples are multiples of 8 and of the requested alignment |
| `HeapState.FirstFit` | src/allocator.rs:213-258 | the index found is the first node that is large and aligned enough; none is found only if no node fits |
| `Allocator.Allocator.TakeFromFreeList` | src/allocator.rs:213-258 | the cursor loop over nodes in memory takes the first fit, unlinks it, and splits it or loses an 8-byte leftover; without a fit nothing changes |
| `Allocator.Allocator.BumpAlloc` | src/allocator.rs:198-211 | the aligned address is handed out and the offset moves past it, or nothing changes |
| `Allocator.Allocator.AllocImpl` | src/allocator.rs:119-154 | large path, free list, bump, fresh chunk, retry: the whole new state and the result |
| `Allocator.Allocator.DeallocImpl` | src/allocator.rs:156-178 | null is ignored, a large block goes back to the backend, a small one becomes the head of the list |
| `Allocator.Allocator.Alloc` | src/allocator.rs:184-186 | under the invariant, `alloc` keeps it and does what the specification function says |
| `Allocator.Allocator.Dealloc` | src/allocator.rs:187-189 | under the invariant, `dealloc` of a held block keeps it and does what the specification function says |
| `HeapInvariant.RunHolds` | src/allocator.rs:119-178 | every legal run of allocations, frees and client stores keeps the invariant |
| `HeapSafety.PiecesSeparate` | src/allocator.rs:119-178 | free nodes, live and large blocks, waste and the unused tail never overlap and lie inside backend regions |
| `HeapSafety.FreeListEnds` | src/allocator.rs:216-258 | following the links in memory yields finitely many distinct nodes, 8-aligned, sized in multiples of 8 of at least 16 |
| `HeapSafety.BytesConserved` | src/allocator.rs:138-152 | after every run the chunk bytes are live, free, unused or waste bytes, and the amounts add up |
| `HeapSafety.WasteGrowth` | src/allocator.rs:200-252 | waste grows only by an 8-byte leftover, by padding below the alignment, or by an abandoned tail plus padding |
| `HeapSafety.StepFrame` | src/allocator.rs:165-177 | a step rewrites only words of free nodes and of the block being freed |
| `HeapSafety.BlockKeepsContents` | src/allocator.rs:181-190 | over any legal run that does not free a block, each of its words stays mapped and holds the client's last store |
| `HeapSafety.AllocGivesBlock` | src/allocator.rs:181-190 | a successful allocation has room for the request, is aligned (large ones up to a page), and overlaps no held block; nothing held is lost |
| `HeapSafety.AllocPlace` | src/allocator.rs:119-154 | a small block comes from the first fitting node if there is one, else from the first room in the chunk if there is any, else from the first room in a fresh chunk of the size asked for |
| `HeapSafety.LargeAlignment` | src/allocator.rs:122-127 | the address the large path returns meets the alignment in every state and for every region offered if and only if the alignment is at most a page |
| `HeapSafety.AllocNull` | src/allocator.rs:119-154 | null is returned if and only if the backend refuses and neither list nor chunk serves the request; then nothing changes |
| `HeapInvariant.FreshChunkServes` | src/allocator.rs:138-152 | a fresh chunk always serves the request it was taken for |
| `HeapInvariant.BumpAddrMeaning` | src/allocator.rs:198-211 | the address is aligned, at or just after the offset, and the block ends inside the chunk |
| `HeapInvariant.RoomyChunkServes` | src/allocator.rs:198-211 | a chunk with room for size plus alignment serves the request without overflow |
| `HeapSafety.FreeThenAlloc` | src/allocator.rs:156-178 | freeing a small block and asking again for its layout gives the same block and restores list, chunk and waste |
| `HeapSafety.DeallocReturns` | src/allocator.rs:156-178 | a legal free of a non-null block, large or small, takes exactly that block out of the multiset of held blocks |
| `HeapSafety.LargeFreeUnmaps` | src/allocator.rs:156-164 | after freeing a large block no word of it is mapped, every other mapped word is unchanged, and the backend may offer the region again |
| `HeapSafety.SmallFreeLinks` | src/allocator.rs:165-178 | a freed small block is the head of the free list, with its whole extent; nothing is unmapped |
| `AllocatorThreads.ActSafe` | src/allocator.rs:89-102 | every step of any thread keeps mutual exclusion, the flag's meaning, and the invariant up to the one range in transit |
| `AllocatorThreads.RunSafe` | src/allocator.rs:89-102 | for any interleaving, exclusion and the invariant hold, list, chunk and blocks are those of the completed requests run one after another, and each request returned the address it returns then |
| `AllocatorThreads.RunHistory` | src/allocator.rs:89-102 | over any run, the requests of each thread that have completed, then the one it is still waiting for or running, are those it had and those it made, in order |
| `AllocatorThreads.RequestAlone` | src/allocator.rs:89-102 | from a safe state with the lock free, an idle thread that asks for anything and is let run is done within eight actions, idle, with the lock free, having done and returned what the request gives |
| `AllocatorThreads.BypassEffect` | src/allocator.rs:119-164 | large requests and frees, made without the lock, add or take out exactly their own block; a refused one changes nothing |
| `AllocatorThreads.ActSerialized` | src/allocator.rs:89-102 | no step, large requests outside the lock included, disturbs where the running closure is heading or what it will return |
| `AllocatorThreads.InitialSafe` | src/allocator.rs:81-87 | a new allocator satisfies all of this |
| `AllocatorThreads.ClosureEnds` | src/allocator.rs:129-153 | a closure is never stuck, and ends within five steps |
| `AllocatorThreads.MicroFrame` | src/allocator.rs:165-177 | a closure's step writes only to free nodes and to the range it has in transit |
| `AllocatorThreads.RunKeepsContents` | src/allocator.rs:77-102 | for any interleaving, a block nobody gives back keeps what was last stored in it |
| `Uleb128.ReadUleb128` | src/container.rs:122-137 | the shift loop gives the base-128 sum modulo 2^64 of the bytes up to the terminator, at most ten, and their number; otherwise nothing |
| `Uleb128.RoundTrip` | src/container.rs:122-137 | for every u64 and every suffix, its encoding decodes to it and to its exact length |
| `Uleb128.PaddedRoundTrip` | src/container.rs:122-137 | padded encodings of any width up to ten bytes decode too |
| `ExportsTrie.ChildEdgeMatchingPrefixFind` | src/macho_image.rs:285-312 | the cursor loop finds the first edge with a non-empty label that starts the suffix, or stops at malformed bytes |
| `ExportsTrie.ExportsTrieWalkForSymbol` | src/macho_image.rs:195-223 | the budgeted loop is the recursive walk with one visit per trie byte |
| `ExportsTrie.OpenedBound` | src/macho_image.rs:206-222 | on any bytes, even without the budget, the walk opens at most one node per symbol byte and one more |
| `ExportsTrie.BudgetEffect` | src/macho_image.rs:202-210 | on any bytes, the budget changes the result exactly when more nodes would be opened than it allows, and then to None |
| `ExportsTrie.BudgetOnlyStopsCycles` | src/macho_image.rs:202-210 | unless the walk reopens a node, the budget does not change the result |
| `TrieFormat.WalkIsTable` | src/macho_image.rs:195-313 | on bytes that encode a trie from offset 0, the walk finds for each symbol exactly what the trie's table gives it |
| `TrieFormat.FreeWalkLooksUp` | src/macho_image.rs:206-222 | from any encoded node, the walk without a budget is lookup in the abstract tree |
| `TrieFormat.NodeUnique` | src/macho_image.rs:233-253 | an offset encodes at most one tree |
| `TrieFormat.OpenedDistinct` | src/macho_image.rs:202-210 | on an encoding no node is opened twice |
| `TrieFormat.LookupIsTable` | src/macho_image.rs:285-312 | with prefix-free labels, greedy lookup finds exactly the entries of the table |
| `TrieSerializer.TrieWritten` | src/macho_image.rs:225-253 | the one-pass serializer with padded offsets writes an encoding of its trie |
| `TrieSerializer.SerializedWalk` | src/macho_image.rs:195-223 | a trie, written and walked, answers every symbol from its table |
| `LoadCommands.LoadCommandsFind` | src/macho_image.rs:43-63 | the loop over load commands is the recursive search with any visitor, errors and panics included |
| `LoadCommands.FindIsFirst` | src/macho_image.rs:43-63 | on commands laid out in the bytes, the search ends with the first command of which the visitor makes something |
| `LoadCommands.ImageNames` | src/macho_image.rs:116-147 | in an image of a header and load commands of any known kinds, an ordinal names the library of the command it counts, and the re-exports are the names of those commands in order |
| `LoadCommands.ImagePlaces` | src/macho_image.rs:84-168 | in such an image the exports trie is where the first command of either kind about it says, and the link-edit segment is the first with that name |
| `LoadCommands.InstallNameRead` | src/macho_image.rs:66-78 | a library name is read if and only if it stands, terminated, where the command points |
| `LoadCommands.CommandsWritten` | src/macho_image.rs:43-78 | load commands, written with any kinds and names, are read back as laid out, with their install names |
| `LoadCommands.DylibInstallPathForOrdinal` | src/macho_image.rs:116-133 | the loop over load commands is the recursive search for the n-th dependency, errors and panics included |
| `LoadCommands.ReexportedDylibPathsCollect` | src/macho_image.rs:136-147 | the loop collects the re-exported paths; a command whose name cannot be read is passed over, an unterminated name panics |
| `LoadCommands.PathIsNth` | src/macho_image.rs:116-133 | on commands laid out in the bytes, the name of the n-th dependency is found, None if there is none |
| `LoadCommands.PastTarget` | src/macho_image.rs:116-133 | ordinal 0 names no library |
| `LoadCommands.ReexportsAreNames` | src/macho_image.rs:136-147 | on commands laid out in the bytes, all re-exported names are returned in order |
| `LoadCommands.OrdinalsAsDocumented` | src/macho_image.rs:116-133 | where no library is loaded twice, the path the walk returns for an ordinal is the install name that the format's own count gives it if and only if that library and all before it are of the two kinds counted |
| `LoadCommands.WeakShiftsOrdinals` | src/bindings_macho.rs:1247-1257 | in the bytes of a weak and a plain dependency, ordinal 1 names the weak library and the walk returns the other |
| `ChainedPointers.WordRoundTrip` | src/bindings_macho.rs:1461-1698 | in each format, every pointer, plain or signed, rebase or bind, with every distance the fields can hold reads back as its entry and that distance |
| `ChainedPointers.EveryWord` | src/bindings_macho.rs:1461-1698 | every 64-bit word is what the writer makes of some pointer and distance, so the decoding of all words is settled |
| `FixupRoundTrip.FormatCodes` | src/fixups.rs:225-257 | which layout each of the five format codes stands for; any other code panics |
| `ChainedPointers.DecodedEncodable` | src/fixups.rs:272-435 | every 64-bit word decodes to an entry and a distance its format can hold |
| `FixupParser.ChainedFixupsParseAll` | src/fixups.rs:145-270 | the loops over segments, pages and links give the recursive reading, errors and panics included |
| `FixupParser.RejectedFormats` | src/bindings_macho.rs:1385-1440 | metadata with an unknown import format, or a record with an unknown pointer format, is an error |
| `FixupParser.NameAtMeaning` | src/fixups.rs:473-480 | an import name is read if and only if it stands there terminated, is UTF-8 and not too long; anything else panics |
| `FixupParser.LinkAdvances` | src/fixups.rs:272-435 | the distance to the next link is a multiple of the stride |
| `FixupParser.ChainBounded` | src/fixups.rs:215-266 | a chain's offsets increase by at least the stride and stay inside the image, which bounds its length by the image length over the stride |
| `FixupRoundTrip.PlanParsed` | src/fixups.rs:145-270 | an image in which the words of a plan stand, and whose metadata announces it, parses to the plan's fixups in order if and only if every import the plan uses is read right |
| `FixupRoundTrip.WrittenThenParsed` | src/fixups.rs:145-480 | chains written in front of fitting metadata leave it intact and parse to the fixups written, if and only if the imports used are read right |
| `FixupRoundTrip.ImportRead` | src/bindings_macho.rs:1844-1866 | a plain import and its name read back; the weak flag is ignored |
| `FixupRoundTrip.AddendImportRead` | src/fixups.rs:455-463 | an import of format 2 is read with its own name offset if and only if its addend equals it |
| `FixupRoundTrip.WideImportRead` | src/bindings_macho.rs:1442-1451 | an import of format 3 is read with its own name offset if and only if the padding before its addend equals it; the addend plays no part |
| `FixupRoundTrip.AddendImportNamed` | src/fixups.rs:454-480 | an import of either format gets its own name if and only if that name stands where the addend, or the padding, points |
| `FixupRoundTrip.AddendMisread` | src/bindings_macho.rs:1868-1875 | in format 2, an import of one name with addend 0 is read as an import of another |
| `FixupRoundTrip.PaddingMisread` | src/fixups.rs:464-472 | in format 3, an import of one name whose addend even is its name offset is read as an import of another |
| `PageStarts.MarkedPages` | src/bindings_macho.rs:1359-1369 | where the documented reading of a segment succeeds, wherever the lists of starts stand, the parser agrees with it if and only if no page start is marked, neither 0xFFFF (no fixups) nor 0x8000 (several starts) |
| `PageStarts.UnusedPageParsed` | src/fixups.rs:206-213 | a segment of one page marked as unused has no fixups by the format, and makes the parser fail |
| `PageStarts.ListedPageParsed` | src/bindings_macho.rs:1365-1368 | a segment of one page with a list of one start has a fixup there by the format, and makes the parser fail |
| `PageStarts.ChainsUnique` | src/fixups.rs:215-266 | chains that read the same fixups begin at the same places |
| `FixupWriter.BlankPrepared` | src/fixups.rs:145-213 | the metadata written for a plan is read back as exactly that plan's header, records, page starts and imports |
| `FixupWriter.WholeImageRoundTrip` | src/fixups.rs:145-480 | every list of fixups the pointer formats can hold, written as a whole image with imports in any of the three formats, parses to the same list (offsets, targets with their top byte, names, ordinals, addends) if and only if each import used has its name where the parser looks for it |
| `FixupWriter.PlainNamesFound` | src/fixups.rs:437-480 | that is so for all plain imports, for those of format 2 whose addends, and those of format 3 whose padding, equal their name offsets |
| `FixupWriter.ImportRead` | src/fixups.rs:437-480 | an import written in any format is read back if and only if its name is found where the parser looks |
| `FixupPipeline.WrittenImageFixedUp` | src/fixups.rs:483-550 | written, parsed, mapped anywhere and applied in two passes, every slot of the plan holds the value asked for and every other byte is untouched |
| `FixupPipeline.RebasedSlot` | src/fixups.rs:498-503 | so the slot of a planned rebase, plain or signed, holds base plus page zero plus target, and that of a weak bind base plus the offset of the first symbol of that name |
| `Patches.ReadBack` | src/fixups.rs:497-503 | among stores that do not overlap, each can be read back |
| `Patches.OrderIrrelevant` | src/fixups.rs:492-550 | stores that do not overlap give the same image in every order |
| `FixupApply.FindSymbol` | src/fixups.rs:561-566 | the weak lookup takes the first symbol of that name, and fails only if there is none |
| `FixupApply.FixupAllChainedFixups` | src/fixups.rs:483-550 | the loop stores in place, in order, up to the first fixup that fails |
| `FixupApply.ApplyMeaning` | src/fixups.rs:483-550 | a run succeeds if and only if every fixup it does not skip resolves, and then its effect is exactly their stores |
| `FixupApply.ValueAskedFor` | src/fixups.rs:483-628 | a fixup gives a value if and only if it is the one asked for: base, target and page zero for a rebase, base and the first symbol of that name for a weak bind, what the library of that ordinal defines for others; and it panics exactly for the ordinals and states that the source leaves unhandled |
| `FixupApply.ApplyPrefix` | src/fixups.rs:483-550 | at the first fixup that gives no value the run ends with its error, the earlier ones stored and nothing else |
| `FixupApply.SlotsHoldValues` | src/fixups.rs:483-628 | after success over disjoint slots, each holds the value asked for (a rebase base plus page zero plus target) and every byte outside them is as before |
| `FixupApply.OrderIndependent` | src/fixups.rs:492-550 | lists with the same fixups, in any order, succeed together with the same image |
| `FixupApply.TwoPasses` | src/main.rs:117-147 | a rebase pass that ignores binds, then a pass over the binds, succeeds exactly when one full pass does, with the same image |
| `FixupApply.SelfFixup` | src/entrypoint.rs:157-183 | the same with every bind redirected to library 1, as the linker does for itself |
| `SharedCache.TotalMappedLength` | src/dyld_shared_cache.rs:450-483 | the scan of the table in memory gives the largest end of a mapping, measured from the first mapping's address, 0 for an empty table; an error if the table leaves the provisional view |
| `SharedCache.SharedCacheView.AttachAll` | src/dyld_shared_cache.rs:154-204 | the main cache and the subcaches its array lists are attached in order, up to the first that cannot be read |
| `SharedCache.SharedCacheView.LibrariesIndexAll` | src/dyld_shared_cache.rs:206-247 | images are indexed in order, uncovered ones skipped, up to the first that is an error or panics |
| `SharedCache.SharedCacheView.FromExisting` | src/dyld_shared_cache.rs:137-145 | attaching and then indexing: the whole new state and the result, also after an error |
| `SharedCache.IndexListsCovered` | src/dyld_shared_cache.rs:206-247 | indexing that succeeds lists exactly the images some mapping covers, in order, each with the place its load address has |
| `SharedCache.ImageIndexed` | src/dyld_shared_cache.rs:206-247 | an entry of the image table, as it stands in memory, is indexed with the place of its address and the string at the place of its path offset; a path that is not UTF-8 panics |
| `SharedCache.ImagesCounted` | src/dyld_shared_cache.rs:206-214 | the number of images is the word of the header at 452 |
| `SharedCache.TablePanics` | src/dyld_shared_cache.rs:60-81 | looking an address up panics if and only if the table leaves its subcache and no entry inside covers the address |
| `SharedCache.LibraryStands` | src/dyld_shared_cache.rs:286-292 | the header found through a library's subcache stands at its load address plus the slide, inside the subcache |
| `SharedCache.RoutesAgree` | src/dyld_shared_cache.rs:154-277 | a covered address located as (subcache, offset) names the byte that adding the slide names, within that subcache's length; an uncovered one is an error, an unreadable table a panic, by both |
| `SharedCache.RoutesAgreeOnlyThen` | src/dyld_shared_cache.rs:249-277 | for an address located in a subcache, not before its base, the two routes agree if and only if the main base is the assumed constant |
| `CacheWitnesses.BaseMatters` | src/entrypoint.rs:90-96 | a cache in memory that was built for address 0 attaches, and the two routes differ |
| `SharedCache.LocateIndex` | src/dyld_shared_cache.rs:250-261 | the subcache reported is the covering one if and only if its index is below 256 |
| `CacheWitnesses.IndexWraps` | src/dyld_shared_cache.rs:250-261 | of 257 subcaches attached from memory the last covers an address, and the first, which does not, is reported |
| `SharedCache.FileRoutesAgree` | src/dyld_shared_cache.rs:83-101 | a file offset leads to the same place directly and through its address, both measured from the first mapping that has it |
| `Reexports.ResolveIsFirst` | src/dyld_shared_cache.rs:307-424 | for every world, query and budget, errors included: the result is None if and only if no path fits the budget, and otherwise what the first such path in hop order comes to |
| `Reexports.SymbolResolveIsFirst` | src/dyld_shared_cache.rs:294-305 | at the entry point, the first path of at most 15 hops decides |
| `Reexports.FindLibraryIsFirst` | src/dyld_shared_cache.rs:273-281 | a path leads to the first library of that path, and to none only if there is none |
| `Reexports.ResolveSound` | src/dyld_shared_cache.rs:307-335 | a found address comes from a path of lookups within the budget, hop by hop, to a library that defines the symbol |
| `Reexports.ResolveComplete` | src/dyld_shared_cache.rs:307-335 | a path within the budget is enough for the result not to be None |
| `Reexports.ResolvesIffReachable` | src/dyld_shared_cache.rs:307-424 | a search that meets no error finds the symbol if and only if a defining library is reachable within the budget, cycles or not |
| `Reexports.ResolvableMonotone` | src/dyld_shared_cache.rs:307-335 | what resolves with one budget is never None with a larger one, and resolves unless that search meets an error |
| `Reexports.PathStable` | src/dyld_shared_cache.rs:405-424 | the path taken within a budget is still taken within a larger one if and only if no path that only the larger one allows comes before it in hop order; then the result is the same |
| `Reexports.AddressMayChange` | src/dyld_shared_cache.rs:405-424 | four libraries for which a larger budget gives another address |
| `Reexports.EnoughBudget` | src/dyld_shared_cache.rs:307-335 | where hops run out within some height, every budget from there on gives the same result, errors included |
| `Reexports.DylibSymbolResolveFollowingReexports` | src/dylib.rs:73-106 | the loop is the recursive chase within 16 lookups |
| `Reexports.TwinsAgree` | src/dylib.rs:73-106 | over libraries without umbrella re-exports the follower and the cache search agree for every budget: same error, same None, same address |
| `Reexports.ChaseNames` | src/dylib.rs:81-101 | the path reported names the library where the chase ended, or is empty if it never left the first |
| `TlvTerminators.Thread.AtExit` | libtlv/thread_local_variables.c:304-347 | the terminator is appended; order and contents survive growth, the key names the one list, capacity stays a power of two, fewer than 2n entries were copied in all |
| `TlvTerminators.Thread.Grow` | libtlv/thread_local_variables.c:322-341 | a list of twice the size has the same entries |
| `TlvTerminators.Thread.FinalizeList` | libtlv/thread_local_variables.c:349-370 | calls are made in finalization order, and every list allocated on the way and the list itself are freed, each once |
| `TlvTerminators.Thread.Exit` | libtlv/thread_local_variables.c:388-396 | everything registered runs, in order; afterwards the key is NULL and no new list is left allocated |
| `TlvTerminators.NewestFirst` | libtlv/thread_local_variables.c:349-370 | newer entries are finalized completely before older ones |
| `TlvTerminators.CalledInTurn` | libtlv/thread_local_variables.c:349-370 | wherever a terminator stands in a list: after all newer ones it runs, right after it everything it registered, then the older ones |
| `TlvTerminators.ExactlyOnce` | libtlv/thread_local_variables.c:349-370 | the calls are, as a multiset, all non-NULL terminators registered, then or later: each exactly once |
| `TlvTerminators.PlainReversed` | libtlv/thread_local_variables.c:350-356 | terminators that register nothing run in reverse order of registration |
| `CacheLinking.BindValue` | src/fixups.rs:581-605 | a bind to a system library stores load address, offset and slide of the library at the end of the first path of at most 15 hops |
| `CacheLinking.BindResolves` | src/fixups.rs:590-594 | such a bind succeeds if and only if there is a path and the first one comes to an address |
| `CacheLinking.BoundSlot` | src/fixups.rs:581-605 | end to end: written, parsed and fixed up in two passes, the slot of a bind to a system library holds that value |
| `CacheLinking.CachedPointer` | src/dyld_shared_cache.rs:286-380 | for a library of an attached cache, load address plus slide is where its header stands in memory |
| `CacheLinking.LibraryNames` | src/dyld_shared_cache.rs:286-424 | a cached library depends on and re-exports the libraries its load commands name |
| `CacheLinking.TrieInMemory` | src/dyld_shared_cache.rs:342-366 | the trie of a library of an attached cache is the bytes of memory from the slid address of the file offset given; where there is none, that address is not covered or the trie would leave its subcache |
| `CacheLinking.NoTrie` | src/dyld_shared_cache.rs:343-354 | a library without a command about its trie, or without a link-edit segment, has no trie |
| `CacheLinking.DefinedAsInTable` | src/dyld_shared_cache.rs:337-382 | a library whose trie bytes encode a trie defines exactly the symbols of its table |
| `CacheLinking.ReexportedAsInTable` | src/dyld_shared_cache.rs:383-402 | a symbol its table gives as re-exported is looked for in the library its ordinal names, there only, under the alias, or its own name if that is empty; an error in finding that library is passed on, and without it the symbol is absent |
| `CacheLinking.AbsentFromTable` | src/dyld_shared_cache.rs:368-370 | a symbol without an entry is absent |
| `CacheLinking.AbsentHops` | src/dyld_shared_cache.rs:405-424 | an absent symbol is looked for in the libraries re-exported whole, in order; an error in listing them ends the search |
| `CacheLinking.TrielessLibrary` | src/dyld_shared_cache.rs:342-366 | in a library without a trie every symbol is absent, and an error in finding it is passed on |
| `TlvImages.LiveImages.SetKeyForImage` | libtlv/thread_local_variables.c:77-101 | the pair is appended to the table, whose capacity starts at 8 and doubles when full |
| `TlvImages.LiveImages.GetImageForKey` | libtlv/thread_local_variables.c:103-116 | the image of the first entry with that key, NULL if there is none |
| `TlvImages.ImageForPush` | libtlv/thread_local_variables.c:96-98 | adding an entry changes the answer only for a key that was not there |
| `TlvImages.KeysLeadBack` | libtlv/thread_local_variables.c:107-112 | a key set first for an image leads back to it |

## Left out

- Bytes within a word of allocator memory: every block starts at a multiple of 8 and has a size that is one, so whole words carry the same frames.
- The backend and its mmap: an oracle that answers with a fresh page-aligned region below 2^63, or refuses. That returning a large block can fail is ignored, as in the source.
- Reallocation and zeroed allocation: the defaults of `GlobalAlloc`, built on the two operations modelled.
- Memory orderings weaker than sequential consistency of the spinlock, and its fairness: a thread may spin forever.
- Overflow panics of debug builds: the arithmetic is that of a release build where it can wrap.
- Overflow of 64-bit sums of addresses in the shared cache and the re-export search, and of a cursor into image data: sums there are unbounded, as if no mapping reached the end of the address space.
- `LoadCommands.DylibInstallPathForOrdinal`: the header's magic is not modelled, and which command kinds exist is a parameter.
- `FixupParser.ChainedFixupsParseAll`: the search for the fixup load command is not modelled; where its data starts, if present, is a parameter.
- `FixupApply.FixupAllChainedFixups`: a store outside the mapped image, which the source makes unchecked, is excluded by its precondition; no slot that is not stored to need lie inside.
- Addends, pointer authentication and their effect on stored pointers: parsed, but the source never uses them when it applies fixups.
- `SharedCache.SharedCacheView.FromExisting`: starts from a new view, as its only caller does; the fields of the header that are not used are not modelled.
- The trie of a library outside the cache: the follower of `src/dylib.rs` is given each library's trie, or the error; only for libraries of the cache is it found in memory.
- Protection and other fields of segments that reading a segment command could reject.
- Failure of `malloc` and overflow of the 32-bit counts in terminator lists, the lock of the image table, pthread itself, and the template copying and initialisers of thread-local variables.
- Big-endian and fat binaries, path resolution and `@rpath`, symbol tables, system calls, pointer signing and the jump to the entry point: case tables, formatting and foreign effects.
- `src/array.rs`: a fixed vector, which would add only easy members.
