# Warpine, verified models

Warpine runs OS/2 programs on Linux. This project models the parts of it that are algorithms
in their own right and proves what they are for. `dafny verify dfyconfig.toml` checks
everything.

- **Linking and loading** (`LinkerState`, `SectionMerging`, `Imports`, `LxFormat`, `LxWriter`,
  `LxParser`, `LxRoundTrip`, `LxEncoding`, `LxFiles`, `LxLoader`, `LinkLoad`, `LoadedImage`,
  `LoadedFiles`, `LinkedSymbols`, `SectionReferences`, `Rebase`, `Selectors`). The linker merges sections, resolves relocations and writes an LX
  file; the parser reads it back; the loader maps its pages and applies its fixups. The chain
  is proved end to end on linkable input: relocation sites apart from each other and inside the
  merged code or data buffer, imports from the eleven known modules, code up to 0x50000 and
  data up to 0x10000 bytes, so that the objects do not overlap in memory, and uninitialised
  data up to 0xF0000000 bytes. Two things can go wrong on the way, and each has its exact
  condition. The load succeeds if and only if uninitialised data fits in the padding of the
  last data page: the page map counts further pages in its file offsets, but the file does not
  hold them. And the loaded memory is the linker's patched image if and only if no resolved
  absolute relocation has an addend: fixup records have no addend field. `SomeBssNeverLoads`
  and `AnAddendIsLost` are inputs that meet these. An addend that is kept in the section itself
  is overwritten by the linker already (`InPlaceAddendIsLost`). What the linker takes for the
  target of a relocation is the first section of that name in all of the input, which is the
  relocating object's own only if no earlier section has its name (`ReferenceIsOwnIff`). What a
  symbol means is read back from loaded memory and compared with the definitions in the input
  (`SymbolsMean`). The linker uses a small part of the format, so the parser and the loader are
  proved against encoders and layouts of their own: any file that holds its tables where the
  header says parses to them (`ParsesAnyFile`), and what any file leaves in memory at any bases
  is told byte by byte (`PageBytesAreTheFiles`, `SitesPoint`, `OtherMemoryStays`).
- **Guest memory blocks and DLLs** (`Allocator`, `Dlls`, `DllNames`, `DllProperties`,
  `DllLoads`, `ImportOrder`, `DllFailures`, `DllExports`). The first-fit allocator tiles its range at all times;
  reference-counted DLLs own blocks of it; recursive loading on top terminates on cyclic import
  graphs. A load that fails leaks the blocks it had taken, also inside a load that succeeds:
  every live block of a run is a DLL's, the guest's, or left behind by such a load.
- **Text console and cooked input** (`Terminal`, `Console`, `Stdin`). The in-place screen is a
  window onto a terminal that never scrolls, and line input is a transducer on the key stream.
  Rows and columns are 16-bit numbers.
- **Semaphores** (`Semaphores`, `SemaphoreProgress`, `SemaphoreObjects`). Threads are state machines that take one
  step for each stretch of code under a lock; statements are about all interleavings. The
  outcomes returned to threads form a log, and the ledger of a mutex is read off that log alone.
  A wait for all is right of events; of a mutex it is right exactly when its thread holds the
  mutex already, or nobody can get at it any more.
- **Lines, directory records, descriptor tables** (`Line`, `FindBuffer`, `Descriptors`) on byte
  memory (`Bytes`, `GuestMemory`).
- **Texts** (`Text`, `Shell`, `ShellCommands`, `Dbcs`, `GenApi`, `GenApiRoundTrip`,
  `DefinitionTexts`). Command-line splitting, double-byte pairing, and the two printer/scanner
  pairs of the ordinal table tool.

Methods have the loops and in-place updates of the original and are proved against functions;
the lemmas then say what those functions achieve. File contents, key presses, the order in
which threads run, timeouts, the decoding of characters and the resolution of imports are
parameters. Bit masks and shifts are written as arithmetic; bit fields that do not overlap are
added where the original joins them with a bitwise or.

Where comments and code of the original differ, the model follows the code: the header of the
descriptor tables speaks of data tiles in entries 6 to 4101 only, while the code also builds
code tiles, for the first 128 MB. It follows the parser, too, in taking the entries of 16-bit
and call gate bundles to start behind the bundle's kind, without the object number that 32-bit
bundles have, and in ending the entry table at a bundle of an unknown kind.

The generator of `module_for_ordinal` writes a test for UCONV that takes the ordinals of
SO32DLL and TCP32DLL as well, unlike the generated file that the repository holds;
`GenApiRoundTrip.PrintedModuleIff` is about what the generator writes.

Arithmetic of the original that can leave its width is modelled as it is in a build without
overflow checks, where it wraps; there a build with overflow checks panics instead.
`bottom - lines + 1` in `scroll_up` and `slice_end - slice_start` in the page map of the linker
go below zero exactly when ghost results of `Console.VioManager.ScrollUp`,
`Console.VioManager.WriteTty` and `LxWriter.WriteLx` say so. The linker's `va + sym.offset` can
pass 2^32; `entry_va - CODE_OBJECT_BASE` and `va - CODE_OBJECT_BASE` go below zero exactly when
it has done so by less than the code base (`SectionMerging.BelowCodeIff`).

## Model

| member | source | states |
|---|---|---|
| `LoadedImage.LinkAndLoad` | src/bin/lx_link.rs:489-729 | Linking, parsing the file and loading it with fixups succeeds on linkable input if and only if uninitialised data fits in the padding of the last data page; afterwards memory holds the patched pages with the bare target address at every resolved site, and equals the linker's own patched image exactly when no resolved absolute relocation carries an addend |
| `LinkLoad.LoadOfLink` | src/loader/lx_loader.rs:31-151 | Where uninitialised data fits in that padding, parsing what the linker wrote and loading it at the preferred bases maps every page and leaves every absolute site holding its target; nothing else in memory changes |
| `LinkLoad.BssNeverLoads` | src/bin/lx_link.rs:681-727 | Where it does not, the file is either beyond the parser's page limit or parses, but its last stack page lies behind the end of the file and cannot be read |
| `LinkLoad.GapIsUnreadable` | src/bin/lx_link.rs:681-727 | When the page map counts a page that has no bytes in the file, the last page of the stack cannot be read, so the load fails |
| `LoadedImage.SomeBssNeverLoads` | src/bin/lx_link.rs:383-389 | One byte of data before an uninitialised section aligned to 8192, whatever its size, is such an input |
| `LoadedImage.LoadedIsPatchedIff` | src/bin/lx_link.rs:516-582 | The loaded image equals the linker's patched, page-padded buffers if and only if every resolved absolute relocation has addend 0 |
| `LoadedImage.AnAddendIsLost` | src/bin/lx_link.rs:540-560 | A concrete linkable object, with a relocation against its own section, for which the loaded image differs: the fixup record carries no addend, so the loader overwrites the addend the linker had applied |
| `LoadedImage.PatchesLand` | src/bin/lx_link.rs:516-582 | Every patched relocation is found, with its addend, in the linker's final section image, whatever the order of the patch lists |
| `LoadedImage.InPlaceAddendIsLost` | src/bin/lx_link.rs:516-582 | At absolute and relative sites alike, the loaded word accounts for the word that the section itself had there if and only if that word is zero: the linker overwrites it |
| `LoadedImage.JumpsReachTargets` | src/bin/lx_link.rs:516-582 | A relative relocation in the loaded image still reaches its target plus addend: the loader moves no jump |
| `LinkedSymbols.SymbolsMean` | src/bin/lx_link.rs:733-769 | In loaded memory, the word at a relocation against a name means the last definition of that name in the input, its offset behind the placed copy of its section; if the name is only imported, the thunk of its module and ordinal; if it is neither, or the address is zero, the bytes of the section stay. At an absolute site the word is the address, at a relative one it reaches address plus addend |
| `LinkedSymbols.SectionsMean` | src/bin/lx_link.rs:788-797 | A relocation against a section name means the first section of that name in the input; if that was not placed, the bytes of the section stay |
| `LinkedSymbols.TableHoldsLastDefinitions` | src/bin/lx_link.rs:395-417 | The symbol table has exactly the names that some symbol in a placed section has, each with the address of its last definition |
| `LinkedSymbols.LastDefinitionExists` | src/bin/lx_link.rs:395-417 | Every such name has a last definition, in a placed copy |
| `LinkedSymbols.RelocIsVisited` | src/bin/lx_link.rs:516-574 | Every relocation of every placed section is visited, at its place in the copy |
| `LinkedSymbols.UntouchedInMemory` | src/bin/lx_link.rs:516-582 | Bytes of the merged sections outside the sites that resolve are the same in loaded memory |
| `LinkedSymbols.EntryPointIs` | src/bin/lx_link.rs:411-417 | The entry point is the last definition of `_start`; without one, of `main`; without either, the start of the code |
| `LinkLoad.LinkableFits` | src/bin/lx_link.rs:489-640 | Linkable input gives an image within all 32-bit fields, with at most eleven modules and absolute fixups only, so the file can be parsed while its pages are within the parser's limit |
| `LxRoundTrip.ParseUndoesWrite` | src/lx.rs:37-260 | Parsing a written file gives back its object table, page map, fixup page table, fixup records page by page, and module names |
| `LxRoundTrip.FileIsLaidOut` | src/bin/lx_link.rs:608-729 | Each table of the written file lies at the offset that the header announces |
| `LxRoundTrip.ReadsFixup` | src/bin/lx_link.rs:835-852 | The fixup decoder reads back the record that the encoder wrote, with its length |
| `LxRoundTrip.ReadsPages` | src/lx.rs:126-142 | Walking the page table over the joined records yields each page's fixups and no others |
| `LxRoundTrip.ReadsNames` | src/lx.rs:144-156 | The import module names are read back in order |
| `LxFiles.ParsesAnyFile` | src/lx.rs:37-260 | Any file that holds objects, pages, resources, fixups of every kind, module names, procedure names, entry bundles and non-resident names where its header says parses to exactly these, with the exports of the bundles |
| `LxFiles.LimitsAreChecked` | src/lx.rs:57-79 | Too many objects or pages, a page shift of 32 or more, and objects of the entry point or the stack that do not exist are refused, in this order |
| `LxFiles.ResourcesAreLimited` | src/lx.rs:99-104 | More than 4096 resources are refused once objects and page map are read |
| `LxFiles.SignaturesAreChecked` | src/lx.rs:39-53 | Nothing is parsed without the two signatures |
| `LxFiles.HeaderFieldsAre` | src/lx/header.rs:277-408 | Every header field that the loader uses is read from its own place among the 172 bytes |
| `LxFiles.ReadsRecord` | src/lx/header.rs:179-275 | A fixup record of any kind, with one source or a list of them, wide or narrow indexes and offsets, and with or without an addend, is read back with its length |
| `LxFiles.ReadsFixupPages` | src/lx.rs:126-142 | The records of each page are those between its offset in the page table and the next one |
| `LxEncoding.ReadsBundles` | src/lx.rs:172-228 | For any list of bundles of unused, 16-bit, call gate and 32-bit slots, encoded anywhere and closed with a zero, the entry table is exactly the exports of its 32-bit slots |
| `LxEncoding.ExportsAreSlots` | src/lx.rs:172-228 | These exports are one for each 32-bit slot: its ordinal counts all slots before it from one, its object is the bundle's, its offset its own |
| `LxEncoding.ExportsAscend` | src/lx.rs:172-228 | They come in ascending order of their ordinals |
| `LxEncoding.ReadsUpToTheEnd` | src/lx.rs:172-228 | The same exports come back if the table ends with the file or with a bundle of an unknown kind; a bundle that the file does not hold is an error |
| `LxEncoding.ReadsNonResident` | src/lx.rs:230-246 | Any list of non-resident names with their ordinals, encoded anywhere, is read back |
| `LxEncoding.ReadsObjectTable` | src/lx.rs:81-88 | Any encoded object table is read back |
| `LxEncoding.ReadsPageTable` | src/lx.rs:90-97 | Any encoded page map is read back |
| `LxEncoding.ReadsResourceTable` | src/lx.rs:99-112 | Any encoded resource table is read back |
| `LxParser.Parse` | src/lx.rs:37-260 | The parser's loops compute the specification of the format, of which `ParsesAnyFile`, `LimitsAreChecked` and `SignaturesAreChecked` say what it returns |
| `LxParser.ReadFixupsByPage` | src/lx.rs:126-142 | Records of each page are read from its slice of the record area, and the first error ends the parse |
| `LxParser.ReadEntryTable` | src/lx.rs:172-228 | The bundle walk over the entry table computes its recursive specification, errors included; `LxEncoding.ReadsBundles` says what that returns |
| `LxWriter.WriteLx` | src/bin/lx_link.rs:489-729 | The writer outputs exactly the parts of the image, joined in file order; the page map's subtraction goes below zero exactly when some data page starts beyond the end of the padded data |
| `LxWriter.Relocate` | src/bin/lx_link.rs:516-574 | The relocation pass over all sections is the fold of one step over the relocations in link order |
| `LxWriter.ResolveReloc` | src/bin/lx_link.rs:733-769 | Resolution of one relocation: the address and fixup target, and the module table grown by at most one new name; `LinkedSymbols.SymbolsMean` and `SectionsMean` say what they come to in loaded memory |
| `LxWriter.GetOrInsertModule` | src/bin/lx_link.rs:776-786 | The module index is that of the name in the table, which grows only when the name is new |
| `LxWriter.BuildFixups` | src/bin/lx_link.rs:584-599 | The page table holds the running sizes of the encoded pages, with one entry past the last |
| `LxWriter.ApplyPatches` | src/bin/lx_link.rs:799-813 | Patches applied in place equal the writes applied in order |
| `LxWriter.PadToPage` | src/bin/lx_link.rs:815-820 | The buffer is extended to the next page boundary with zeros and is otherwise unchanged |
| `LxWriter.ImageIsPaged` | src/bin/lx_link.rs:452-454 | The patched buffers are whole pages, as many as the page map counts if and only if uninitialised data fits in the padding; code has no uninitialised part |
| `LxWriter.FoldKeepsPages` | src/bin/lx_link.rs:516-574 | The relocation pass never changes the number of pages that carry fixups |
| `LxLoader.Load` | src/loader/lx_loader.rs:31-68 | Loading performs the page writes and then the fixup writes, in order; it fails only when a page cannot be read or a write does not fit |
| `LxLoader.MapPages` | src/loader/lx_loader.rs:37-53 | Page mapping performs exactly one write per object page |
| `LxLoader.ApplyFixups` | src/loader/lx_loader.rs:72-151 | The nested fixup loops perform the list of site writes in order, or stop at one that does not fit |
| `LinkLoad.PagesAreMapped` | src/loader/lx_loader.rs:37-53 | Mapping the pages of a written file puts each object's content at its base and leaves all other memory alone |
| `LinkLoad.FixupsRearrangeTargets` | src/bin/lx_link.rs:516-599 | The fixup writes of the loader, bucketed by page, are a rearrangement of the linker's target words |
| `GuestMem.ApplyRearranged` | src/loader/guest_mem.rs:87-106 | Separate writes performed in any order all land and leave the rest of memory alone |
| `GuestMem.GuestMemory.WriteBytes` | src/loader/guest_mem.rs:99-106 | A write inside the memory stores its bytes and nothing else; one that does not fit changes nothing |
| `GuestMem.ApplyLands` | src/loader/guest_mem.rs:87-106 | Of separate writes every one that fits can be read back afterwards |
| `SectionMerging.BuildLaysOutSections` | src/bin/lx_link.rs:354-441 | Merged sections lie at multiples of their alignment, disjoint and in input order, with their bytes copied and all padding zero |
| `SectionMerging.SymbolsPointIntoSections` | src/bin/lx_link.rs:395-409 | Every symbol-table address is a symbol's offset inside a placed copy of a section that defines that name, and every definable symbol is entered |
| `SectionReferences.ReferenceIsOwnIff` | src/bin/lx_link.rs:788-797 | A reference to a placed section by its name, which is how the reader hands on every relocation against a symbol of the same object, resolves to that section if and only if no section before it in the input has the same name |
| `SectionReferences.SecondTextMeansFirst` | src/bin/lx_link.rs:788-797 | With two objects of one code section each, the second's reference to its own code gets the address of the first's |
| `SectionMerging.BelowCodeIff` | src/bin/lx_link.rs:395-409 | A symbol's address lies below the code object, where subtracting its base goes below zero, exactly when adding the symbol's offset passed 2^32 by less than that base |
| `SectionMerging.NothingBelowCode` | src/bin/lx_link.rs:395-417 | While no symbol's offset passes 2^32, every address and the entry point are at or above the code object |
| `SectionMerging.FindMergedVaFinds` | src/bin/lx_link.rs:443-450 | The lookup returns the address of a placed copy of the section, and fails only if there is none |
| `SectionMerging.CodePlacesObject` | src/bin/lx_link.rs:354-392 | Every text section of every object is placed in the code object |
| `SectionMerging.DataPlacesObject` | src/bin/lx_link.rs:354-392 | Every initialised data section is placed in the data object |
| `LinkerState.Build` | src/bin/lx_link.rs:354-417 | The linking loops compute the specified merge and symbol table |
| `LinkerState.MergedSection.Append` | src/bin/lx_link.rs:433-441 | Appending pads to the alignment, copies the section and records where it went |
| `LinkerState.AlignUpIsMultiple` | src/bin/lx_link.rs:429-431 | The aligned value is the smallest multiple not below the given one |
| `LinkerState.BssIsCounted` | src/bin/lx_link.rs:383-389 | The size of uninitialised data covers all such sections of the input, with no more than their alignments added |
| `LinkerState.BssHasItsPlace` | src/bin/lx_link.rs:383-389 | An uninitialised section gets its size from the next multiple of its alignment on |
| `Rebase.OnlySitesChange` | src/loader/lx_loader.rs:72-151 | Fixups change no byte of an object outside its sites |
| `Rebase.OutsideObjects` | src/loader/lx_loader.rs:72-151 | Fixups change nothing outside the objects |
| `Rebase.SitesPointToTargets` | src/loader/lx_loader.rs:110-146 | Each site form holds its target: flat, relative, 16:16 through the inverse conversion below 256 MB, 16-bit and 16:32 |
| `Rebase.LoadsDifferByBases` | src/loader/lx_loader.rs:72-151 | Two loads of one file at different bases agree outside the sites, and each internal site differs by the shift of its target's base in the way of its type: 32-bit, self-relative, 16-bit, 16:32, and 16:16 below 256 MB |
| `LoadedFiles.SitesAreThose` | src/loader/lx_loader.rs:72-83 | For any file, the loader visits exactly the source offsets of the fixup records of the pages of its objects |
| `LoadedFiles.PageBytesAreTheFiles` | src/loader/lx_loader.rs:37-53 | After loading any file at any bases, a byte of a page that no written site covers is the file's, found at the data pages' offset plus the page's own times two to the page shift |
| `LoadedFiles.SitesPoint` | src/loader/lx_loader.rs:84-146 | Every site whose target has an address points to it in the way of its kind: object base plus offset, the thunk of a built-in module, a DLL's export, an imported name's ordinal in its module, or the last stub for an unknown import |
| `LoadedFiles.OtherMemoryStays` | src/loader/lx_loader.rs:31-151 | Memory that belongs to no page and no written site keeps its contents |
| `LoadedFiles.PlacedFilesFit` | src/loader/lx_loader.rs:31-151 | A file whose objects lie apart inside memory, their pages and sites in them, is loaded whenever it holds its pages |
| `LoadedFiles.ThunkBasesAgree` | src/loader/descriptors.rs:91-104 | The thunk ranges of the linker and of the loader are those of the ordinal table tool |
| `Selectors.SelectorRoundTrip` | src/loader/doscalls.rs:1399-1426 | Flat to selector and back is the identity exactly below 256 MB |
| `Allocator.MemoryManager.Alloc` | src/loader/managers.rs:29-51 | First fit with splitting, else growth at the top, with the overflow and limit checks of the original |
| `Allocator.MemoryManager.Free` | src/loader/managers.rs:53-71 | The block is released, the free list sorted, and free blocks at the top reclaimed |
| `Allocator.AllocationIsFirstFit` | src/loader/managers.rs:29-51 | An allocation takes the first free block that is large enough, from its start, and gives back the rest; only if there is none does the heap grow, and only if it may not does the allocation fail and change nothing |
| `Allocator.FreeGivesBack` | src/loader/managers.rs:53-71 | A freed block is free as a whole or above the new top, and the free list is in the order of addresses |
| `Allocator.RunKeepsValid` | src/loader/managers.rs:29-71 | Over any run of allocations of at least one byte and frees, blocks are whole pages that exactly tile the used range, which stays within the limit, and no free block is left at the top |
| `Allocator.NothingLiveIsInitial` | src/loader/managers.rs:53-71 | When nothing is live the allocator is back in its initial state |
| `Allocator.LiveBlocksAreDisjoint` | src/loader/managers.rs:29-71 | No two live blocks of a run overlap, and each lies inside the managed range |
| `Allocator.ValidAfterAllocIff` | src/loader/managers.rs:29-51 | An allocation keeps the tiling exactly when it fails or asks for at least one byte |
| `Allocator.ZeroSizeAliases` | src/loader/managers.rs:29-51 | A zero-byte allocation succeeds and its address is given out again by the next one |
| `Allocator.AllocAddsAddr` | src/loader/managers.rs:29-51 | A successful allocation makes exactly one new address live |
| `Allocator.FreeDropsAddr` | src/loader/managers.rs:53-71 | A free makes exactly that address not live, and reports whether it was |
| `Dlls.DllLoader.LoadDllImpl` | src/loader/lx_loader.rs:167-321 | The recursive loader terminates on every finite import graph, computes the specified state, and hands the loading set back as it was |
| `Dlls.DllLoader.LoadImports` | src/loader/lx_loader.rs:234-261 | The loop over the imports skips built-in, registered and in-progress modules and loads the others in order |
| `Dlls.DllLoader.FreeModuleByHandle` | src/loader/managers.rs:377-391 | A free drops one reference; at zero the DLL is removed and its blocks are freed |
| `DllProperties.DllsOwnTheirMemory` | src/loader/managers.rs:326-391 | In every reachable state each count is loads minus frees and positive, names and handles are distinct, and every object of a DLL's file has a live block at least as large as the object and a page, disjoint from all others |
| `DllProperties.RunKeepsGood` | src/loader/managers.rs:326-391 | The same as an invariant of every run of loads, frees and guest memory calls |
| `DllProperties.UnloadReturnsItsBlocks` | src/loader/stubs.rs:404-431 | Freeing the last reference makes exactly that DLL's blocks free again |
| `DllNames.LoadNames` | src/loader/lx_loader.rs:167-321 | A nested load registers no name that is on the loading stack, and registers its own name exactly when it succeeds, from any state of memory |
| `DllProperties.LoadNew` | src/loader/lx_loader.rs:167-321 | A load of a new name keeps the invariant, and every block it takes is a new DLL's or left behind by a load that failed, itself or nested |
| `DllProperties.LoadAgain` | src/loader/lx_loader.rs:175-183 | Loading a registered name again changes its reference count and nothing else |
| `DllProperties.GuestFreeIff` | src/loader/managers.rs:53-71 | A free by the guest keeps the invariant exactly when no DLL owns the address |
| `DllFailures.FailedLoadTakes` | src/loader/lx_loader.rs:185-229 | A load that fails changes nothing but the heap, where exactly the blocks taken before the failure stay live without an owner; the live set is unchanged if and only if the file cannot be read, has no objects, or finds no memory for the first |
| `DllFailures.FailedLoadLeaks` | src/loader/lx_loader.rs:185-229 | What a load leaves behind, when it fails or when imports of it fail, is still live and without an owner after any later behaved run in which the guest does not free the address itself |
| `DllFailures.EveryLiveBlockIsAccountedFor` | src/loader/managers.rs:29-71 | At every point of every behaved run each live block belongs to a DLL, was given to the guest and not freed, or was left behind by a load that failed, nested ones included, and only one of these |
| `DllFailures.SomeLoadLeaks` | src/loader/lx_loader.rs:185-229 | Two objects and memory for one: a load that fails and leaks |
| `DllFailures.GuestFreeBreaks` | src/loader/managers.rs:53-71 | A run in which a load succeeds and the invariant holds, until the guest frees the block of the DLL |
| `DllFailures.CycleLeavesImportUnresolved` | src/loader/lx_loader.rs:234-266 | Two DLLs that import each other: the inner one's fixups are applied while its import is unregistered, although that import is loaded in the end |
| `DllLoads.LoadSucceedsIff` | src/loader/lx_loader.rs:167-321 | A load fails if and only if the name is not registered and its own file cannot be parsed, its objects find no memory, or its pages cannot be read into that; then no DLL is added or counted. Otherwise it returns the handle of a registered DLL of that name, whatever becomes of its imports |
| `DllLoads.FailedImportsFailed` | src/loader/lx_loader.rs:234-261 | In any run, an import that is left out of the statements on import order as failed has no file, or one that could not be loaded |
| `DllLoads.RoomIsEnough` | src/loader/lx_loader.rs:197-207 | Room above the heap for whole pages for every object is enough to place them, whatever is free below |
| `ImportOrder.AcyclicImportsResolved` | src/loader/lx_loader.rs:234-266 | On an import graph without cycles every import that is not built in and did not fail is registered before its importer's fixups, in any run |
| `ImportOrder.ResolvedUnlessCyclic` | src/loader/lx_loader.rs:234-266 | On any graph and in any run such an import is registered at that moment exactly when it is not on the loading stack |
| `DllExports.ExportsByOrdinal` | src/loader/lx_loader.rs:268-276 | The loop enters each export whose object was loaded, at the object's base plus its offset; the last of an ordinal counts |
| `DllExports.ExportsByName` | src/loader/lx_loader.rs:278-283 | The loop enters in upper case each name whose ordinal is exported; the last of a name counts |
| `DllExports.SlotHasAddress` | src/loader/lx_loader.rs:268-276 | From the entry bundles of a DLL's file, the ordinal of each slot gets the slot's offset in the slot's object |
| `DllExports.OthersHaveNone` | src/loader/lx_loader.rs:268-276 | Ordinals that no 32-bit slot of a loaded object has are not exported |
| `DllExports.ImportsReachSlots` | src/loader/lx_loader.rs:84-146 | From file to file: where a program imports an ordinal of a DLL, its loaded memory points to the offset that the slot of this ordinal has in the DLL's own file, in the DLL's object where that was loaded |
| `Console.VioManager.WriteTty` | src/loader/console.rs:225-290 | The screen stays the last rows of a terminal that never scrolls, fed the same bytes, with the cursor inside. Plain text up to the right edge appears from the cursor on, each byte with its character and the attribute, and nothing else changes but that all rows move up if the last byte wraps at the bottom; each control byte does its own. The subtraction of the scroll goes below zero if and only if the screen has one row and the text leaves it |
| `Console.LeavesRowIff` | src/loader/console.rs:225-290 | A scan of the text for line feeds and the right edge tells whether the cursor moves down, and the column it ends in otherwise |
| `Console.TextWindow` | src/loader/console.rs:225-290 | What a terminal shows in its last rows after plain text up to the right edge, or after one control byte |
| `Console.PlainFeed` | src/loader/console.rs:247-276 | Plain text overwrites the cells from the cursor on, one for each byte, and moves the cursor behind them, to the next line if it reached the edge |
| `Console.VioManager.ScrollUp` | src/loader/console.rs:394-444 | Rows move up in place, vacated rows are filled, and all other rows stay, for every region and number of lines; `bottom - lines + 1` goes below zero if and only if the region starts at row 0 and the lines exceed its last row |
| `Console.UnderflowsIff` | src/loader/console.rs:419-433 | The exact condition of that, and the wrapped sum: 0 in that case, else the first vacated row |
| `Console.ClearingUnderflows` | src/loader/viocalls.rs:162-173 | On every screen, scrolling all of it up by its height or more is such a case |
| `Console.VioManager.ScrollDown` | src/loader/console.rs:465-515 | Rows move down in place, vacated rows are filled, and all other rows stay |
| `Console.ScrollDownUndoesUp` | src/loader/console.rs:394-515 | Scrolling a region up and down again restores the rows that stayed on it, and shows the two fillings elsewhere |
| `Console.NoLinesClear` | src/loader/console.rs:394-515 | A scroll by no lines clears the region; one that reaches below the screen does nothing |
| `Console.ScreenIsTerminal` | src/loader/console.rs:225-290 | Every valid screen is the window onto some such terminal |
| `Console.VioManager.Resize` | src/loader/console.rs:118-141 | The top left part of the screen is kept, new cells are blank, and the cursor is clamped to the new bounds |
| `Console.GrowingLosesNothing` | src/loader/console.rs:118-141 | Resizing to a larger screen and back restores every cell |
| `Console.ResizedCellIs` | src/loader/console.rs:118-141 | A resized screen shows what both sizes have, and light grey blanks elsewhere |
| `Terminal.FeedConcat` | src/loader/console.rs:225-290 | Writing two texts one after the other is writing their concatenation |
| `Terminal.HistoryStays` | src/loader/console.rs:247-276 | Output never changes a line above the cursor's line |
| `Stdin.Input.Read` | src/loader/doscalls.rs:110-180 | One read takes keys from the queue, echoes them to the screen, and delivers the next owed byte or gives up only when nothing is owed; its effect is the read step of the whole-run model, with the same keys taken |
| `Stdin.RunsDeliverCookedKeys` | src/loader/doscalls.rs:110-180 | Over any run of key presses and reads the bytes delivered so far, followed by those owed, are the cooked key stream; `KeyAdds` says what each key adds to that |
| `Stdin.KeyAdds` | src/loader/doscalls.rs:130-172 | One more key adds CR LF for Enter; for a backspace itself, if and only if since the last Enter more characters were typed than backspaces delivered, and else nothing; itself for every other key |
| `Stdin.EnterStartsAnew` | src/loader/doscalls.rs:144-150 | Keys before an Enter, the Enter, and keys behind it are cooked apart: the keys behind it as from an empty line, the Enter to CR LF |
| `Stdin.CountOnLine` | src/loader/doscalls.rs:130-172 | On a line the count of cooked characters is the characters typed less the backspaces delivered |
| `Stdin.EchoStaysBehindStart` | src/loader/doscalls.rs:130-172 | From an empty line, typing and backspacing before Enter never changes a cell before the place where input began, across wraps and scrolls |
| `Stdin.EachLineStaysBehindItsStart` | src/loader/doscalls.rs:130-172 | The same for every line: input begins where the echo of the last Enter left the cursor, and no key of the line changes a cell before that |
| `Stdin.CharacterIsEchoed` | src/loader/doscalls.rs:166-176 | A typed character appears at the cursor, which moves on, and nothing else changes |
| `Stdin.BackspaceErases` | src/loader/doscalls.rs:152-165 | A backspace with something to erase blanks the cell before the cursor and goes there |
| `Stdin.OtherKeysAreEchoed` | src/loader/doscalls.rs:144-176 | Enter goes to the start of the next line; a backspace with nothing to erase and control keys show nothing |
| `Stdin.EchoConcat` | src/loader/doscalls.rs:130-172 | The echo of some keys and then of more is the echo of all of them |
| `Stdin.RunsEchoTakenKeys` | src/loader/doscalls.rs:110-180 | Over any run of key presses and reads, each with its own code page, the screen is the echo of all keys taken so far, and these with the queue are the keys pressed |
| `Stdin.ReadsStayBehindStart` | src/loader/doscalls.rs:110-180 | However many reads a line is typed over, before Enter no cell before the place where input began changes |
| `Stdin.ReadsStayBehindEachStart` | src/loader/doscalls.rs:110-180 | So over any run of reads, for the line that is being typed |
| `Semaphores.MutualExclusion` | src/loader/doscalls.rs:1104-1153 | In every reachable state of any interleaving at most one thread holds a mutex; owner and count are exactly its grants minus releases, and the count is 0 exactly without an owner |
| `Semaphores.OutcomesAreLawful` | src/loader/doscalls.rs:1104-1153 | A grant finds every other thread holding nothing, a release is by a holder, and 288 goes exactly to non-holders |
| `Semaphores.StrangersReleaseNothing` | src/loader/doscalls.rs:1136-1153 | A release by a thread that holds nothing returns 288 and changes no semaphore; by the holder it takes one off |
| `Semaphores.WaitAllIsRight` | src/loader/doscalls.rs:1174-1209 | When a wait for all returns, every event it waited for is posted at that moment, under any interleaving with its record-by-record scan |
| `Semaphores.WaitAnyIsRight` | src/loader/doscalls.rs:1174-1209 | When a wait for any returns, the event it reports is posted at that moment |
| `Semaphores.WaitAllMissesMutex` | src/loader/doscalls.rs:1174-1209 | A run in which a wait for all over a mutex and an event returns although another thread holds the mutex: the promise is for events only |
| `Semaphores.WaitAllIsRightOfMutexIff` | src/loader/doscalls.rs:1174-1209 | When a scan for all has ended, a mutex is sure to be free or the waiting thread's at the return if and only if that thread holds it, or it is free, closed, and asked for by no other thread |
| `Semaphores.WaitAllIsRightOfOpenMutexIff` | src/loader/doscalls.rs:1174-1209 | For an open mutex the condition is that the waiting thread holds it |
| `Semaphores.WaitAllIsRightOfHeld` | src/loader/doscalls.rs:1174-1209 | At the return of a wait for all, every mutex among its records that the thread held when it called is held as often as then, and every record that is not a mutex is a posted event |
| `Semaphores.ScanStaysEnded` | src/loader/doscalls.rs:1174-1209 | Once a scan for all has ended, the wait returns at its next step, whatever others do before |
| `Semaphores.FreeMutexCanBeTaken` | src/loader/doscalls.rs:1174-1209 | Whenever a scan for all ends with a mutex open and free, any other thread outside a call can take it before the wait returns, and the wait returns all the same |
| `Semaphores.HeldMutexStays` | src/loader/doscalls.rs:1104-1153 | A mutex that a thread holds stays as it is until that thread asks for it again or releases it, also while the thread waits |
| `Semaphores.RunKeepsInv` | src/loader/ipc.rs:48-121 | The invariant behind these: handles, ledgers, histories and scans agree after every action |
| `SemaphoreProgress.RequestIsGrantedIff` | src/loader/doscalls.rs:1104-1134 | In any run, a thread inside a request is granted it at its next step if and only if every other thread's ledger of the mutex is zero; its own ledger then rises by one, whatever it was |
| `SemaphoreProgress.WaitReturnsIff` | src/loader/doscalls.rs:1072-1103 | In any run, a thread that waits for an event returns at its next step if and only if the event was created posted, or posted while open |
| `SemaphoreProgress.UndisturbedScanReturnsIff` | src/loader/doscalls.rs:1174-1209 | A multi-wait that nothing disturbs returns after one look at each record if and only if all of them are ready, or one is for a wait for any; it reports the last ready one |
| `SemaphoreProgress.ReadyIff` | src/loader/doscalls.rs:1186-1194 | A record is ready if and only if its handle is open and it is an event that was posted, or a mutex that no other thread's ledger holds |
| `SemaphoreProgress.EventsAre` | src/loader/doscalls.rs:1054-1066 | An event is set if and only if it was created posted, or posted while open |
| `SemaphoreProgress.CallsAreEntered` | src/loader/doscalls.rs:1104-1209 | A call on a handle that is not open, or is of another kind, returns 6 at once; any other call is entered |
| `SemaphoreProgress.CreatedMutexIsHeld` | src/loader/ipc.rs:74-81 | A mutex created owned is held once, by thread 0; otherwise nobody holds it |
| `SemaphoreProgress.HandlesAre` | src/loader/ipc.rs:48-121 | Handles count all creations from one, and are open until closed |
| `SemaphoreObjects.SemaphoreManager.CreateMutex` | src/loader/ipc.rs:74-81 | Creation uses the shared handle counter; created owned means one request by thread 0 |
| `SemaphoreObjects.SemaphoreManager.PostEvent` | src/loader/doscalls.rs:1054-1066 | A post sets the event, returns 299 if it was set and 6 for an unknown handle, and touches no other semaphore |
| `SemaphoreObjects.SemaphoreManager.RequestFound` | src/loader/doscalls.rs:1104-1134 | One turn of the request loop makes exactly the model's step, also on a semaphore closed meanwhile; `RequestIsGrantedIff` says when that grants the request |
| `SemaphoreObjects.SemaphoreManager.ReleaseFound` | src/loader/doscalls.rs:1136-1153 | A release makes exactly the model's step with its return code |
| `SemaphoreObjects.SemaphoreManager.IsReady` | src/loader/doscalls.rs:1186-1194 | One look of the scan answers what the model's scan asks |
| `SemaphoreObjects.SemaphoreManager.CloseMutex` | src/loader/ipc.rs:87-89 | Closing removes the handle from the manager and leaves the semaphore as it is |
| `Line.RenderLine` | src/gui/render_utils.rs:78-100 | The loop takes exactly max(dx, dy) steps without 32-bit overflow, and colours exactly the visible pixels under the points of the ideal rounded line |
| `Line.WithinHalfAPixel` | src/gui/render_utils.rs:78-100 | Each point is within half a pixel of the segment: twice the absolute value of dx*j - dy*i is at most max(dx, dy) |
| `Line.EndsAtTheEnds` | src/gui/render_utils.rs:78-100 | The line starts at one end, stays in the bounding box, and is at the other end after max(dx, dy) steps and not before |
| `Line.ErrorDecides` | src/gui/render_utils.rs:94-98 | The two tests on the error term move each axis exactly when the rounded ideal line does |
| `Line.Ranges` | src/gui/render_utils.rs:78-100 | Coordinates and error term stay within 30 bits for coordinates within 2^28 |
| `FindBuffer.WriteFindBuffer` | src/loader/doscalls.rs:868-911 | The records of the entries that fit stand one after the other with their offsets linked, nothing else changes, and 111 is returned exactly when none fits |
| `FindBuffer.PackedWalksBack` | src/loader/doscalls.rs:868-911 | Following the offsets from the buffer yields exactly the packed entries, names cut at 255 bytes, 4-byte aligned; no byte outside the buffer changes |
| `FindBuffer.RecordEnds` | src/loader/doscalls.rs:877-896 | What a walk does not look at: the record's size, the size 4 of an empty attribute list on level 2, and the zero behind the name |
| `FindBuffer.Relinked` | src/loader/doscalls.rs:898-900 | Back-patching an offset changes that field of that record and nothing else of it |
| `FindBuffer.AppendedIsLaid` | src/loader/doscalls.rs:877-905 | One turn of the loop keeps every earlier record intact |
| `Descriptors.SetupIdt` | src/loader/descriptors.rs:145-219 | The loops perform exactly the listed descriptor, stub and gate writes |
| `Descriptors.PartsApart` | src/loader/descriptors.rs:145-219 | No table entry, gate or stub overwrites another |
| `Descriptors.TilesReadBack` | src/loader/descriptors.rs:9-25 | Every data and code tile reads back with base i * 64 KB and limit 0xFFFF |
| `Descriptors.SegmentsAre` | src/loader/descriptors.rs:145-188 | Every descriptor in memory is the one of its kind: base, limit, presence, ring, code or data, and width; the first is null |
| `Descriptors.GatesReachTheirStubs` | src/loader/descriptors.rs:190-219 | Each of the 32 gates points through the flat code segment at its own intact stub |
| `Descriptors.StubsUnifyTheStack` | src/loader/descriptors.rs:190-219 | Whatever the exception, run as instructions its stub leaves on the stack the vector, an error code, which is zero where the processor gives none, and what the processor pushed |
| `Descriptors.FlatAddressesResolve` | src/loader/doscalls.rs:1399-1426 | Below 256 MB the selector and offset of a flat address lead back to it through the table in memory and through the inverse conversion |
| `Descriptors.EntryHasItsLayout` | src/loader/descriptors.rs:124-133 | The stored descriptor is the segment descriptor of section 3.4.5 of the Intel SDM, volume 3A, byte by byte |
| `Descriptors.EntryReadsBack` | src/loader/descriptors.rs:9-25 | Base and 20-bit limit are recovered from the stored entry |
| `Descriptors.OnlyTheTables` | src/loader/descriptors.rs:145-219 | Memory outside the tables is untouched |
| `Shell.Tokenize` | src/loader/cmd.rs:968-993 | The index loop computes the character-by-character lexer |
| `Shell.RejoinedTokensAreStable` | src/loader/cmd.rs:968-993 | Tokenizing any tail of the tokens rejoined with single spaces gives the same tokens, an unclosed quote included |
| `ShellCommands.SpacedTokensComeBack` | src/loader/cmd.rs:968-993 | Splitting gives back any tokens, with any numbers of spaces around them |
| `Shell.TokensAreSolid` | src/loader/cmd.rs:968-993 | Tokens are non-empty, have no space outside quotes, and only the last can have an open quote |
| `Shell.TokensKeepTheText` | src/loader/cmd.rs:968-993 | Tokens contain the line's text in order, without the spaces outside quotes and without loss |
| `Shell.ParseCommand` | src/loader/cmd.rs:1020-1082 | The parser's loops compute segments and redirections as specified |
| `Shell.SegmentsAreStable` | src/loader/cmd.rs:1020-1082 | Parsing a produced segment again gives that one segment and no redirection |
| `ShellCommands.PiecesComeBack` | src/loader/cmd.rs:1020-1082 | A command line put together from text, pipes and redirections in any order parses to what they mean: the text between pipes in trimmed segments, the file of the last input and the last output redirection that name one, `>>` appending and `>` not |
| `Dbcs.AnnotateDbcs` | src/gui/text_renderer.rs:86-113 | The in-place loop computes the annotation, the fast way out included |
| `Dbcs.RowsAreIndependent` | src/gui/text_renderer.rs:86-113 | Annotating the flat screen is annotating each row alone and concatenating |
| `Dbcs.PairsAreWhole` | src/gui/text_renderer.rs:86-113 | Leads are lead bytes followed in their row by their tail, tails follow their lead, and a single lead byte is the last of its row |
| `Dbcs.LeadBytesAre` | src/loader/locale.rs:224-246 | The lead bytes of the four double-byte codepages; no other codepage has any |
| `Dbcs.AnnotationIsUnique` | src/gui/text_renderer.rs:75-85 | These conditions leave only one annotation |
| `Dbcs.WalkRow` | src/gui/text_renderer.rs:331-461 | The column walk draws each column of a row exactly once and meets no tail by itself |
| `GenApi.GenTrace` | src/bin/gen_api.rs:482-566 | The printer's loops write exactly the lines of the trace file |
| `GenApi.ExtractTraceNames` | src/bin/gen_api.rs:175-241 | The scanner's loop computes the fold of its line step, stopping at the end of the function |
| `GenApiRoundTrip.TraceRoundTrip` | src/bin/gen_api.rs:175-275 | Scanning the printed trace file returns exactly the map from flat ordinals to names |
| `GenApiRoundTrip.FlatDecides` | src/bin/gen_api.rs:102-109 | Within their ranges two entries share a flat ordinal only if they share module and ordinal |
| `GenApiRoundTrip.BasesResolve` | src/bin/gen_api.rs:244-263 | The constant printed for a module resolves back to its base |
| `GenApiRoundTrip.PrintedModuleIff` | src/bin/gen_api.rs:540-565 | For an ordinal in a module's range the printed tests return that module if and only if the ordinal is below SO32DLL's base, 13312; they return UCONV for all above |
| `GenApi.GenDef` | src/bin/gen_api.rs:741-771 | The printer's loops write exactly the lines of the definition file |
| `GenApi.ParseDef` | src/bin/gen_api.rs:113-157 | The parser's loop returns the entries of all lines, or the first error with its line |
| `DefinitionTexts.FileIsRead` | src/bin/gen_api.rs:113-157 | Without a mistake the entries of the lines come in order, each once; otherwise the first mistake is reported with its line |
| `DefinitionTexts.EntryIsRead` | src/bin/gen_api.rs:113-157 | A line with module, dot, ordinal and name in any spacing is that entry, its flat ordinal the module's base plus the ordinal; a bad ordinal is reported before an unknown module |
| `DefinitionTexts.DotIsMissing` | src/bin/gen_api.rs:134-136 | Two words without a dot in the first are that mistake |
| `DefinitionTexts.NameIsMissing` | src/bin/gen_api.rs:126-132 | One word alone is that mistake |
| `DefinitionTexts.OthersAreSkipped` | src/bin/gen_api.rs:119-124 | Blank lines and comments are skipped |
| `GenApiRoundTrip.DefRoundTrip` | src/bin/gen_api.rs:741-771 | Parsing the printed definition file returns the same entries in module order, by ordinal within each module |

## Left out

- Imports from SO32DLL and TCP32DLL: the linker knows eleven modules.
- LoadedImage.LinkAndLoad: for linkable input only; overlapping relocation sites, sites that reach beyond the merged buffer (sites need not lie in their own section), and code or data that runs into the next object are not covered.
- LinkLoad.LoadOfLink: for linkable input only, as `LinkAndLoad`.
- The command line, definition files and ELF reader of the linker: parsed objects are the input; which size the reader reports for an uninitialised section is up to the ELF library.
- Files beyond 4 GiB and names that are not ASCII: names are read byte by byte as characters.
- LxLoader.Load: registering the parsed resources in memory is not modelled; a write outside guest memory ends the original with a panic, and is an outcome here.
- LxWriter.WriteLx: images whose offsets and sizes fit 32 bits.
- DllProperties.RunKeepsGood: guests ask for at least one byte and do not free blocks that a DLL owns; `GuestFreeIff` and `ValidAfterAllocIff` say that these are the exact limits.
- DllLoads.LoadSucceedsIff: DLL fixups that miss guest memory end the original with a panic, and are not modelled there.
- DllExports.ImportsReachSlots: exports are not part of the loader's state in `Dlls`; a lookup table of the DLLs' exports is a parameter of loading.
- ShellCommands.PiecesComeBack: text whose quotes are left open inside a piece is covered by `Shell.SegmentsAreStable` and `Shell.ParseCommand` only.
- Initialisation entry points, registration of built-in modules by DosLoadModule, and the search for a DLL's file: a map from names to files stands for the file system.
- Console.VioManager.WriteTty: the state of the graphical mode only, on a screen with rows and columns; ANSI output and writes at a given position are not modelled.
- Stdin.Input.Read: keyboard-queue path only; the width of the count of cooked characters is not modelled.
- Semaphores.MutualExclusion: counts and handles are unbounded; 2^32 nested requests or creations are not modelled.
- Semaphores.WaitAllIsRight: says nothing of mutexes among the records; `WaitAllMissesMutex` is a run in which it fails for one, and `WaitAllIsRightOfMutexIff` the exact condition.
- Clocks and shutdown: giving up is possible at any time.
- Line.RenderLine: buffers of less than 2^30 in each direction and 2^32 pixels in all; rectangles and text are not modelled.
- FindBuffer.WriteFindBuffer: for a buffer inside guest memory of at most 2 GiB; reading directories and encoding names are not modelled.
- Descriptors.SetupIdt: memory holds the tables, or the original panics.
- GenApi.ParseDef: entries carry no line number for diagnostics, and a flat ordinal beyond 32 bits is not cut off.
- GenApiRoundTrip.TraceRoundTrip: names are letters, digits and underscores, as all in the table are; the escapes that Rust prints for other characters are not modelled.
- The checks and reports of the ordinal table tool, queues, sockets, windows, audio, host files and the virtual CPU.
