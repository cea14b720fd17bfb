# Verification of the FT9201 fingerprint driver

This project models a libfprint driver for the Focal-systems FT9201 USB fingerprint reader (device 2808:9338) and the
in-process loader for the vendor's matching library, and proves what they promise, for every input, every behaviour of
the sensor, of the operating system's mapping calls and of the vendor library, and every sequence of operations.

Check it with `dafny verify dfyconfig.toml` (Dafny 4.11).

## What is modelled

**The engine image** (`PeFile`, `PrepareImage`, `ImageMap`, `ImageTheory`, `AccessLog`, `ImportSpec`, `Imports`,
`ImportTables`, `ImportTheory`, `ImportFaults`, `Exports`, `Loader`, `FaultFiles`; file format: Microsoft PE/COFF
specification, sections 3.4, 4, 6.3 and 6.4). An offline script lays a PE file out by RVA into a sidecar. The loader
checks the file, reserves an address range and overlays header and section mappings from the sidecar. Class
`ImageMap.Image` holds the loader's state: bytes, page map and size. Interval walks over the section table decide which
ranges may be touched; an access to memory that is not mapped, or not mapped for it, is a fault, and every load in the
model is made only after finding out that it is none. Import binding patches the memory it is reading: the `Run`
functions of `ImportSpec` say what it does under any aliasing, the `Walk` functions say what it would do over frozen
memory, and the two agree when no access touches an earlier store. `ImportTables` says from the tables alone which of
them are accepted and to which slots the loader comes, `ImportFaults` on which tables binding faults, and `FaultFiles`
gives two files on which it does.

**Files as they are written** (`Layout`, `PeLayout`, `PeMapping`, `ImportLayout`, `BoundImage`, `ExportLayout`,
`ElfLayout`). The readers of the other modules find fields at offsets. These modules write headers and tables down
field after field, by concatenation, as the format standards give them (for ELF: the System V ABI, chapter 4), and
prove what the program makes of them in those terms alone: which files it accepts, which rights and bytes each page
gets, which value each import slot holds, what a lookup returns, which bytes extraction takes.

**Scanning** (`Wire`, `Pixels`, `ScanSpec`, `ScanTheory`, `ScanLaws`, `ScanWire`, `ScanSenses`, `ScanLegacy`,
`Driver`). Class `Driver.Ft9201` is the device object; its methods are the dispatcher, the callbacks, the completion
handler and the libfprint entry points. `ScanSpec.Step` is the same on values. Any transfer may fail or bring any
bytes, and the engine may answer anything. Two traces are kept: the USB transfers, and the acts (scans and operations
starting and ending, engine calls with their answers, reports). `ScanTheory.Allowed` is the protocol that the acts keep
to; `ScanLaws` and `ScanWire` are what a reader may conclude from it for every run. `ScanSenses` says from which
transfer each act comes.

**Opening** (`BringupSpec`, `BringupTheory`, `Bringup`, `Session`). The opening state machine: the five-transfer
handshake of this sensor, and the legacy bring-up with firmware upload, verification, reset and polling, which is not
reachable from it and is treated from its own entry state.

**The engine wrapper** (`Engine`, `Frame`, `Recognition`). The single-record storage adapter, with the vendor library
as an oracle that may call back into it any number of times during any engine call; the way of a frame into the engine;
and driver, wrapper and library together, over whole sessions.

**Firmware** (`SymbolListing`, `FirmwareElf`, `FirmwareText`). Extraction of the firmware from an ELF file by the text
of its symbol listing, and the C header it is printed into.

The methods of `Driver.Ft9201`, `Bringup.Opener`, `Imports` and `Engine.Wrapper` are proved against specification
functions: each contract equates the object's whole new value with the function of its old value, so that what is
proved about the functions for all runs holds of the objects (`Driver.Ft9201.Run`, `Bringup.Opener.Run`,
`Session.OpenAndUse`).

`hide` statements keep function bodies that a proof does not need away from the solver.

## Where the code does less than its names or comments say

- The loader computes several header offsets in 32 bits, and in files of more than 4 GiB reads other fields than the
  script does. `PrepareImage.LoaderImpliesPrepareExactly` says for which offsets of the PE header every file it accepts
  is accepted by the script. Files of at most 4 GiB are not affected (`ImageTheory.FitsMeansSame`).
- On such files image_range may read another SizeOfHeaders than the one that was mapped. What it lets through is mapped
  exactly when no header byte that only the walk sees lies outside the sections (`ImageTheory.TrustExactly`), and it
  lets through all that is mapped exactly under the mirrored condition (`ImageTheory.ReachExactly`).
  `ImageTheory.MisreadFileLoads` gives files that script, checks and mappings accept and that violate the one or the
  other; on one of them binding dies of a fault at its first load (`FaultFiles.BindPhantomFile`).
- image_range takes a null `g_image` for an image that is not mapped, so that it refuses everything if the preferred
  base is 0 and the kernel grants it; `ImageTheory.WalkMatchesPageMap` covers that case.
- `image_writable_range` tests coverage by sections and ignores their flags, and only the first eight bytes of each
  import address table go through it. A store may therefore fault: exactly when the loader comes to a slot with a byte
  whose last covering section is executable, or none (`ImportFaults.BindingFaultsExactly`). `FaultFiles.BindTableFile`
  proves, for one file, that binding faults with its tables in code and succeeds with them in data.
- The capture command always announces 5120 bytes, while the read asks for width times height. Over all runs the two
  match exactly when width times height is 5120 (`ScanWire.SizedExactlyFor5120`).
- The histogram stretch is documented as following background correction; for a one-level image a uniform background
  shifts the result. `Pixels.UniformBackground` gives the exact condition.
- The states that would configure the MCU after a firmware upload are dead code: verification jumps over them
  (`BringupTheory.LegacyRun`).
- The firmware offset is a 32-bit counter; an upload ends exactly for firmware of at most 2^32 - 64 bytes
  (`BringupTheory.LegacyTerminates`).

## Model

| member | source | states |
|---|---|---|
| PeFile.LaidOutIsLastCover | scripts/prepare-engine-image.py:58-59 | a laid-out byte is the one of the last section whose raw range covers it |
| PeFile.LaidOutUncovered | scripts/prepare-engine-image.py:56-57 | a byte no raw range covers is the header byte, or zero past the headers |
| PrepareImage.Lay | scripts/prepare-engine-image.py:56-60 | slice assignments keep the length SizeOfImage, and every byte follows the layout rule |
| PrepareImage.Prepare | scripts/prepare-engine-image.py:22-60 | an image results exactly for files that pass every check, and it is the reference layout |
| PrepareImage.OrderIrrelevant | scripts/prepare-engine-image.py:43-60 | with disjoint raw ranges every permutation of the section list gives the same byte at every RVA |
| PrepareImage.PermutedTable | scripts/prepare-engine-image.py:41-60 | permuting the rows of the table in the file keeps it accepted and its image the same outside the table's own bytes |
| PrepareImage.CoffFieldsExact | src/ft_engine.c:287-294 | while the 32-bit sums do not wrap the loader reads the same COFF fields and section table as the script |
| PrepareImage.LoaderImpliesPrepareExactly | src/ft_engine.c:283-303 | every file the loader's checks accept and whose PE header starts at e is accepted by the script, exactly when e is below 2^32 - 20, or is one of the two offsets at which the loader accepts no file |
| PrepareImage.WrappingFileRejected | src/ft_engine.c:287-289 | for each other wrapping offset, a concrete file that the loader accepts and the script rejects |
| PrepareImage.MachineOverSignature | src/ft_engine.c:287-289 | at those two offsets the machine field overlaps the DOS signature and no file is accepted |
| ImageMap.ReachIsMax | src/ft_engine.c:104-111 | the readable limit is the furthest end of a readable section covering the byte, or the header's |
| ImageMap.PageProtCovers | src/ft_engine.c:326-343 | after any sequence of overlays a page is accessible exactly when some overlay covers it, despite 32-bit rounding |
| ImageMap.Image.constructor | src/ft_engine.c:28-46 | the image pointer is null at first |
| ImageMap.Image.CheckHeaders | src/ft_engine.c:283-303 | the checks succeed exactly for the files LoaderAccepts describes |
| ImageMap.Image.CheckSections | src/ft_engine.c:296-301 | the loop accepts exactly tables whose every section lies in the image and in the file |
| ImageMap.Image.Overlay | src/ft_engine.c:340-342 | a fixed mapping fails exactly on an empty, unaligned or refused request, and changes only its own pages |
| ImageMap.Image.Store64 | src/ft_engine.c:364-373 | a store changes eight bytes when all are writable, else faults and changes none |
| ImageMap.Image.MapSection | src/ft_engine.c:331-342 | one section's overlay succeeds exactly when it fits and is aligned, and extends the page map by it |
| ImageMap.Image.MapHeaders | src/ft_engine.c:316-329 | the reservation at the preferred base, null included if the kernel grants it, and the header overlay succeed exactly under the sidecar-size, base and header conditions |
| ImageMap.Image.MapSections | src/ft_engine.c:330-343 | the loop succeeds exactly when every overlay does |
| ImageMap.Image.MapImage | src/ft_engine.c:316-343 | the mapping phase succeeds exactly under MapsOk, and every accessible byte then shows the sidecar |
| ImageMap.Image.SectionReach | src/ft_engine.c:67-73 | the inner loop makes progress exactly when some section covers the cursor, over covered bytes only |
| ImageMap.Image.ImageRange | src/ft_engine.c:50-79 | true exactly when the image pointer is not null, the range lies in the image and every byte is in the header pages or a section; it terminates |
| ImageMap.Image.ImageWritableRange | src/ft_engine.c:80-98 | true exactly when, besides, every byte is covered by sections |
| ImageMap.Image.ReadableRangeLength | src/ft_engine.c:99-113 | the distance to the furthest end of the header pages or of one readable section |
| ImageTheory.FitsMeansSame | src/ft_engine.c:60-61 | without wrapping both readings of SizeOfHeaders agree, and no file of at most 4 GiB wraps |
| ImageTheory.AccessibleIsCovered | src/ft_engine.c:326-343 | after mapping a byte is accessible exactly when the header or a section overlay covers it inside the image |
| ImageTheory.TrustExactly | src/ft_engine.c:50-79 | every range that the walk lets through is mapped, exactly when all header bytes that only the walk's reading of SizeOfHeaders covers lie in sections |
| ImageTheory.ReachExactly | src/ft_engine.c:50-79 | every mapped range is let through, exactly when all header bytes that only the mapping's reading covers lie in sections |
| ImageTheory.WalkMatchesPageMap | src/ft_engine.c:50-79 | after mapping, image_range answers "every byte was mapped" for all non-empty ranges exactly when the image is not at the null address and the two readings of SizeOfHeaders agree where no section covers |
| ImageTheory.RangeMatches | src/ft_engine.c:50-79 | for one range: usable to the walk exactly when backed by the page map |
| ImageTheory.ReadableIsAccessible | src/ft_engine.c:99-113 | the returned length never leaves mapped memory, and is positive exactly in header pages or readable sections |
| ImageTheory.MisreadFileLoads | src/ft_engine.c:60-63 | three concrete files that script, checks and mappings all accept: two, at 0x180000000 and at the null address, on which the walk refuses mapped byte 0 and still lets nothing unmapped through, and one on which it lets unmapped byte 0x1000 through |
| ImageTheory.LoadPrepared | src/ft_engine.c:275-344 | script and loader composed: success exactly when both accept and no mapping fails, and every accessible byte follows the layout rule whichever overlay won its page |
| AccessLog.LoadSeesInitial | src/ft_engine.c:361-374 | in a hazard-free run of loads and stores every load sees the initial memory |
| AccessLog.StoresSurvive | src/ft_engine.c:361-374 | after a hazard-free run every stored word still holds its value |
| ImportSpec.FindShimIsFirst | src/ft_engine.c:132 | the shim found is the first of that name, null if none |
| ImportSpec.LookupShim | src/ft_engine.c:132 | the loop finds it |
| ImportSpec.TurnStops | src/ft_engine.c:362-370 | a turn that ends the thunk loop over frozen memory ends it the same way over patched memory, unless an access of its faults |
| ImportSpec.TurnStores | src/ft_engine.c:364-373 | a turn that stores has the same effect over patched memory, or faults |
| ImportSpec.ThunksRefine | src/ft_engine.c:360-375 | a hazard-free thunk loop over patched memory matches the frozen walk |
| ImportSpec.DescsRefine | src/ft_engine.c:351-377 | so does the descriptor loop |
| ImportSpec.ImportsRefine | src/ft_engine.c:346-377 | binding without hazards gives the frozen walk's verdict and stores, and faults exactly when one of its accesses does not land |
| Imports.Peek | src/ft_engine.c:353-362 | a short load goes through exactly when both its ends are mapped |
| Imports.Range | src/ft_engine.c:50-79 | a true answer means the range may be read, unless the walk sees header bytes outside the sections that are not mapped |
| Imports.ReadWindow | src/ft_engine.c:368-370 | the bytes a name may occupy, all of them mapped |
| Imports.ResolveThunk | src/ft_engine.c:365-373 | null for an ordinal, the shim for a name that is NUL-terminated in its readable region, else rejection; the bytes examined are mapped |
| Imports.ThunkRange | src/ft_engine.c:361 | the loop goes on exactly while thunk and slot are both usable |
| Imports.StoreThunk | src/ft_engine.c:364-373 | a slot is patched, or the store faults and changes nothing |
| Imports.BindThunk | src/ft_engine.c:362-373 | one turn on the mapped image is the turn of the specification |
| Imports.BindThunks | src/ft_engine.c:360-375 | the thunk loop on the mapped image runs as specified and terminates |
| Imports.CheckDesc | src/ft_engine.c:355-358 | a descriptor passes exactly when names and tables are usable and the first slot is covered by sections |
| Imports.LoadDesc | src/ft_engine.c:353 | a descriptor is read, or the load faults |
| Imports.BindDescs | src/ft_engine.c:349-376 | the descriptor loop runs as specified and terminates |
| Imports.BindImports | src/ft_engine.c:346-377 | binding on any mapped image leaves the memory and outcome of the specification, faults included |
| ImportTables.ThunkWalkOk | src/ft_engine.c:360-375 | the thunk loop ends well exactly when some thunk is zero and usable and all before it are usable, non-zero, and an ordinal or a readable name |
| ImportTables.ThunkWalkStores | src/ft_engine.c:360-375 | its stores are exactly those of the thunks before the first that cannot be bound, each of what that thunk asks for |
| ImportTables.DescWalkOk | src/ft_engine.c:349-377 | the descriptor loop ends well exactly when some descriptor is all zero and usable, and all before it are usable, not zero, pass their checks and have well-formed thunks |
| ImportTables.DescWalkStores | src/ft_engine.c:349-377 | its stores are exactly those for the slots it comes to |
| ImportTables.ImportWalkOk | src/ft_engine.c:346-377 | the whole walk ends well exactly when there are no imports or the directory and all tables in it are well formed |
| ImportTables.ImportWalkStores | src/ft_engine.c:346-377 | it stores exactly into the slots it comes to, into each what its thunk asks for |
| ImportTables.ComesToLive | src/ft_engine.c:346-377 | on well-formed tables it comes to every slot before the zero thunk of every descriptor before the zero one, and to no other |
| ImportTheory.LiveStored | src/ft_engine.c:351-376 | a walk that ends well stores the value of every slot before the zero thunk of every descriptor before the zero one |
| ImportTheory.StoresAreSlots | src/ft_engine.c:364-373 | every store goes to such a slot, whether the walk ends well or not |
| ImportTheory.BindingIsExact | src/ft_engine.c:346-377 | after a successful hazard-free binding every such slot holds null for an ordinal and the named shim otherwise, and no other byte changed |
| ImportTheory.ApartTablesHaveNoHazard | src/ft_engine.c:346-377 | slots disjoint from each other, descriptors, names and foreign lookup tables make binding hazard-free |
| Loader.LoadAndBind | src/ft_engine.c:275-378 | from any file to a bound image: refusal exactly as the checks say, then binding on the laid-out image; where it touches nothing it has stored, it succeeds exactly when the tables are well formed and every access lands, rejects exactly when they are not and every access lands, faults exactly at unwritable slots where image_range can be trusted, and after success every slot is exact |
| ImportFaults.BindingEnds | src/ft_engine.c:346-377 | without hazards binding succeeds exactly when the tables are well formed and every access lands, and rejects exactly when they are not and every access lands |
| ImportFaults.FaultsAtSlots | src/ft_engine.c:361-374 | when loads land, binding faults exactly when the loader comes to a slot that may not be written |
| ImportFaults.ReadyIsSafe | src/ft_engine.c:50-113 | on a mapped image all that the range walks let through may be read, exactly when all header bytes that only the walk sees lie in sections |
| ImportFaults.DescLoadsLand | src/ft_engine.c:351-376 | so no load of the whole walk faults |
| ImportFaults.PageWritable | src/ft_engine.c:330-343 | a page is writable exactly when the last section covering it is not executable |
| ImportFaults.BindingFaultsExactly | src/ft_engine.c:346-377 | on a mapped image that image_range does not misread so, binding faults exactly when the loader comes to a slot with a byte not in a section or last in an executable one, and succeeds exactly when it comes to none and the tables are well formed |
| FaultFiles.BindTableFile | src/ft_engine.c:275-378 | one file whose tables lie in code or data: binding faults or succeeds |
| FaultFiles.BindPhantomFile | src/ft_engine.c:275-378 | one file that script, checks and mappings accept and whose import directory nothing maps: image_range lets it through and binding faults |
| Exports.FirstNamedUnique | src/ft_engine.c:432-438 | at most one index is the first well-formed match |
| Exports.MatchName | src/ft_engine.c:433-438 | a name is compared only if NUL-terminated inside its readable region |
| Exports.SearchNames | src/ft_engine.c:432-444 | the index of the first match, exactly when all names up to it are well formed; a fault exactly at a name entry that the search comes to and that is not mapped |
| Exports.FollowOrdinal | src/ft_engine.c:439-442 | the target exactly when the ordinal is in the table, the base does not overflow, and the target is mapped; a fault exactly when one of the two entries is not mapped |
| Exports.Directory | src/ft_engine.c:425-431 | the directory exactly when it and its three tables are usable |
| Exports.CheckTables | src/ft_engine.c:431 | the three tables are accepted exactly when wholly usable |
| Exports.GetExport | src/ft_engine.c:424-446 | an RVA is returned exactly when the first match has only well-formed names before it and leads to a mapped target; it faults exactly when the directory, a name entry that the search comes to, or an ordinal or function entry of the matching name is not mapped |
| Exports.NoPhantomNoFault | src/ft_engine.c:424-446 | no lookup faults where all that image_range lets through is mapped |
| PeLayout.FileSays | src/ft_engine.c:283-301 | headers written field after field are what the file says; the directories start at 112 and the section rows behind the optional header |
| PeLayout.SaysSections | src/ft_engine.c:296-301 | row i of the section table is read back with its two sizes, address, file offset and flags |
| PeLayout.SaysDirectory | src/ft_engine.c:347 | entry k of the directories is read back with its RVA and size |
| PeLayout.AcceptedExactly | src/ft_engine.c:283-303 | script and loader accept a file exactly when its written headers meet the conditions, the loader while its 32-bit sums do not wrap |
| PeMapping.RightsExactly | src/ft_engine.c:337-339 | the page of a byte is read-execute exactly when bit 29 of the flags of the last row covering it is set, else read-write |
| PeMapping.RightsOutside | src/ft_engine.c:320-329 | a byte no row covers is readable exactly in the header pages |
| PeMapping.UsableIs | src/ft_engine.c:50-79 | a range is usable exactly when every byte lies in the image and in the header pages or within a row's address plus its larger size in whole pages |
| PeMapping.StringRoomIs | src/ft_engine.c:99-113 | n bytes are readable in one piece exactly when they lie in the header pages or in one row with bit 30 of its flags set |
| PeMapping.MapsIs | src/ft_engine.c:316-343 | no mapping fails exactly under the written conditions on base, header size and rows |
| PeMapping.LoadWritten | src/ft_engine.c:275-344 | a file with written headers is refused exactly as they say; then every page has the rights of its row and every mapped byte shows the raw data of the last row, the headers or zero |
| ImportLayout.LiveIs | src/ft_engine.c:349-364 | with written tables in memory, the slots to bind are those of the written imports, each with its thunk and its place |
| ImportLayout.ValueIs | src/ft_engine.c:364-373 | a thunk with bit 63 clear and a name two bytes behind the RVA in its low 31 bits asks for the first shim of exactly that name, whatever its other bits, and is rejected exactly when the name is not whole in its region; one with bit 63 set asks for null |
| ImportLayout.BoundAsWritten | src/ft_engine.c:349-375 | after exact binding every slot holds what its written import asks for, and no other byte has changed |
| ImportLayout.TablesOkIs | src/ft_engine.c:346-377 | written tables are well formed exactly when directory, names, thunks and slots are where they may be |
| ImportLayout.LaidApartIsApart | src/ft_engine.c:346-377 | written tables whose ranges keep apart are free of hazards |
| BoundImage.TablesOkIsFit | src/ft_engine.c:346-377 | the same condition on the written headers |
| BoundImage.BoundExactly | src/ft_engine.c:346-377 | written tables that keep apart are bound exactly when they fit and every slot lies in rows without bit 29, fault when they fit and some slot does not, and end as BoundAsWritten |
| BoundImage.BindWritten | src/ft_engine.c:275-378 | all of load_pe up to thread-local storage, from written headers and import tables to the bytes of every slot |
| ExportLayout.ExportedIs | src/ft_engine.c:424-446 | what a lookup finds in written export tables is what the first entry of that name leads to through its ordinal |
| ExportLayout.GetWritten | src/ft_engine.c:424-446 | the lookup returns exactly that function's RVA, and faults never, where no 32-bit sum wraps |
| Pixels.Extremes | src/ft9201.c:1095-1100 | the loop's two results bound all pixels and are attained |
| Pixels.FpnIs | src/ft9201.c:1086-1092 | a pixel is corrected to itself less the background plus 128, stopped at 0 and 255 |
| Pixels.StretchIs | src/ft9201.c:1095-1104 | a pixel is stretched to the whole part of 255 times its share of the range of levels |
| Pixels.SpreadStrict | src/ft9201.c:1101-1104 | the stretch never merges or reorders grey levels |
| Pixels.StretchOrder | src/ft9201.c:1095-1104 | on whole images pixel order is kept in both directions |
| Pixels.StretchFull | src/ft9201.c:1095-1104 | an image with two grey levels is stretched to attain 0 and 255 |
| Pixels.StretchIdempotent | src/ft9201.c:1095-1104 | stretching twice is stretching once |
| Pixels.UniformBackground | src/ft9201.c:1085-1104 | correction by a uniform background that clamps nothing does not show after the stretch, exactly unless the image has one level and the background is not 128 |
| Pixels.CorrectInPlace | src/ft9201.c:1086-1092 | the loop replaces the first pixels by their clamped corrections and nothing else |
| Pixels.StretchInPlace | src/ft9201.c:1095-1104 | the two loops stretch the first n bytes in place |
| ScanTheory.StartScanOk | src/ft9201.c:1327-1333 | starting a scan keeps the invariant |
| ScanTheory.RetryOk | src/ft9201.c:1160-1178 | a bad frame: identify ends, verify rescans, enroll reports and rescans |
| ScanTheory.CompleteWithErrorOk | src/ft9201.c:1144-1158 | a failed scan completes the running operation |
| ScanTheory.EnrollStepOk | src/ft9201.c:1280-1320 | folding in a frame keeps the invariant whatever the engine answers |
| ScanTheory.IdentifyDoneOk | src/ft9201.c:1218-1266 | the gallery loop keeps to the protocol |
| ScanTheory.VerifyDoneOk | src/ft9201.c:1269-1278 | one comparison, one report with its result, one completion |
| ScanTheory.ScanDoneOk | src/ft9201.c:1161-1320 | the completion handler keeps the invariant |
| ScanTheory.StepOk | src/ft9201.c:766-1443 | every event keeps the invariant: protocol, mode flags, count of kept frames, reachable states |
| ScanTheory.RunOk | src/ft9201.c:766-1443 | so does every sequence of events |
| ScanLaws.AnyRun | src/ft9201.c:1327-1443 | in every run of an opened device the acts keep to the protocol, no legacy state is entered, and the mode flags name the running operation |
| ScanLaws.AnySession | src/ft9201.c:737-759 | the same for a device opened again, whatever flags, counter, buffers and prints earlier sessions left |
| ScanLaws.FrameIsFresh | src/ft9201.c:804-849 | a frame given to the engine is the one captured in the scan just ended, after a finger was seen and before its lift (which polls and transfers these are: ScanSenses.FrameFromSensor) |
| ScanLaws.SeparatedByLift | src/ft9201.c:841-849 | between any two frames given to the engine a lift was seen after the capture of the first, and the second was captured in a scan begun after that lift (on poll bytes: ScanSenses.LiftBetween) |
| ScanLaws.LiftIsActedOn | src/ft9201.c:1160-1196 | no captured frame is passed over: with a loaded engine it is handed over right after the lift, without one the operation ends with an error |
| ScanLaws.UpdateContract | src/ft_engine.h:22-26 | update only directly after an enrollment accept that returned 0, in a begun session |
| ScanLaws.CommitContract | src/ft_engine.h:27-29 | commit only directly after an update that kept its frame, in a begun session, when due |
| ScanLaws.CommitOncePerSession | src/ft_engine.h:22-29 | between two commits a session is begun |
| ScanLaws.VerifyContract | src/ft_engine.h:31-33 | verify only after a verification accept that returned 0 |
| ScanLaws.VerdictIsOnStoredPrint | src/ft9201.c:1268-1277 | a verification reports the engine's verdict on exactly the print it was begun with, on the frame just accepted |
| ScanLaws.FoundPrintIsFirst | src/ft9201.c:1218-1266 | print k is reported right after the engine matched exactly gallery[k], every print before it being empty or missed on the same frame |
| ScanLaws.NothingFound | src/ft9201.c:1218-1266 | no match is reported only when every print of the gallery is well typed and empty or missed |
| ScanLaws.SearchCutShort | src/ft9201.c:1225-1266 | an identification whose frame was accepted ends with an error only at an ill-typed print, all before it being empty or missed on that frame |
| ScanLaws.VerdictIsActedOn | src/ft9201.c:1196-1216 | the act after an accept is the one its verdict and the running operation demand |
| ScanLaws.ResultIsLastAct | src/ft9201.c:1304-1320 | an operation's result is that of its last act; a template is returned exactly when just committed |
| ScanLaws.ProgressCounts | src/ft9201.c:1291-1293 | successful reports carry 1, 2, 3, ... without gap up to the number of kept frames, never more than 18 |
| ScanLaws.RetryRepeats | src/ft9201.c:1282-1288 | retry reports repeat the current count |
| ScanLaws.CommitExactlyWhenDue | src/ft9201.c:1295-1303 | after a kept frame and its report, commit follows exactly at the first complete status or at 18, else the next scan |
| ScanLaws.KeptIsFollowed | src/ft9201.c:1291-1303 | between events no kept frame is left unreported |
| ScanLaws.EndIsResolved | src/ft9201.c:1138-1320 | the next control act after a scan's end is one new scan or the completion of the operation that was running |
| ScanLaws.ResolvedOnce | src/ft9201.c:1138-1320 | never both: a new scan ends before anything completes, and after a completion only a new operation begins |
| ScanLaws.NoEndLeftOpen | src/ft9201.c:1138-1320 | between events no scan end is unresolved |
| ScanLaws.LegacyCapture | src/ft9201.c:902-931 | a legacy frame passes exactly when whole and of non-zero quality, and is then the corrected and stretched new frame; a short read never lets the previous frame through |
| ScanLaws.SearchIsFirstHit | src/ft9201.c:1225-1252 | the loop ends at the first match, or at an ill-typed print before any match, or without one |
| ScanLaws.SearchExactly | src/ft9201.c:1225-1252 | each of the three results occurs exactly when it should |
| ScanLaws.IdentifyReports | src/ft9201.c:1218-1266 | print k is reported exactly when it is the first match and no ill-typed print precedes it; no match exactly when all are well typed and none matches; an error without report exactly when an ill-typed print precedes any match |
| ScanWire.EnterWire | src/ft9201.c:933-999 | entering a state sends the next transfer of the capture routine and keeps the wire disciplined |
| ScanWire.ScanDoneQuiet | src/ft9201.c:1138-1320 | the completion handler itself sends nothing |
| ScanWire.RunWire | src/ft9201.c:804-999 | every run keeps the wire invariant |
| ScanWire.WireDiscipline | src/ft9201.c:948-993 | every 0x6f command directly follows an arm with value 3, every bulk read a 0x6f command, no upload transfer is sent, and a run's reads have the announced length exactly for 5120-byte frames or when none was read |
| ScanWire.SizedExactlyFor5120 | src/ft9201.c:983-993 | all reads of all runs have the announced length exactly when frames have 5120 bytes |
| ScanWire.CaptureSequence | src/ft9201.c:942-999 | what an open device sends is polls and beginnings of the capture routine in its exact order, each after a poll |
| ScanSenses.StepAdds | src/ft9201.c:804-931 | for every event in every state, what is logged is what the event tells, by its bytes, and then only acts of the driver's own and engine calls answered as given |
| ScanSenses.StepMoves | src/ft9201.c:804-849 | where every event leads a scan: a poll byte 1 on to the capture, a whole frame to the wait for the lift, a poll byte 0 to its end, all else back to the delay or to an error |
| ScanSenses.ErrorEnds | src/ft9201.c:1144-1158 | a failed scan ends the operation with an error, an identification with a retry error by its retry report |
| ScanSenses.SensedFirst | src/ft9201.c:804-849 | over whole runs every finger, frame, lift or failure in the log comes from the event that tells it |
| ScanSenses.FrameFromSensor | src/ft9201.c:804-849 | over whole runs every frame given to the engine is the first bytes of one transfer read after a poll byte 1 and handed over on a poll byte 0 |
| ScanSenses.LiftBetween | src/ft9201.c:804-849 | between the reads of two such frames lie a poll byte 0 and then a poll byte 1 |
| ScanLegacy.StepGoes | src/ft9201.c:851-931 | every event keeps a legacy scan's own record of background, poll, capture and lift, or ends it |
| ScanLegacy.LegacyFrameIsFresh | src/ft9201.c:883-931 | over any run of a scan begun at SCAN_BG_RESET_EP, a frame given to the engine is the stretched frame of a whole read in that scan, corrected by the background read in it, between a finger-present poll and a lift |
| Driver.Ft9201.constructor | src/ft9201.c:737-759 | buffers of the frame's size, zeroed, no operation running |
| Driver.Ft9201.SubmitImage | src/ft9201.c:1072-1108 | quality check, correction and stretch in place leave the specified frame |
| Driver.Ft9201.SearchPrints | src/ft9201.c:1225-1252 | the loop makes exactly the calls and comes to the result of the gallery search |
| Driver.Ft9201.CaptureCallback | src/ft9201.c:821-839 | a short frame fails the scan, a whole one replaces the buffer |
| Driver.Ft9201.BackgroundCallback | src/ft9201.c:883-900 | a background frame is stored if whole, else dropped, errors included |
| Driver.Ft9201.ImageCallback | src/ft9201.c:902-931 | a short legacy frame zeroes the quality bytes |
| Driver.Ft9201.Handle | src/ft9201.c:766-1443 | one event on the object is one step of its value |
| Driver.Ft9201.Run | src/ft9201.c:766-1443 | any sequence of events on the object is the run of its value, to which every law above applies |
| BringupTheory.OpeningIsHandshake | src/ft9201.c:276-302 | for every behaviour of the sensor, opening stays in the five handshake states and sends a prefix of five transfers |
| BringupTheory.HandshakeOutcome | src/ft9201.c:276-302 | the device opens exactly when the reply has 25 bytes, with geometry from bytes 23 and 24 and defaults for zero |
| BringupTheory.HandshakeFails | src/ft9201.c:141-148 | any transfer of the handshake that fails ends it for good |
| BringupTheory.FailureEnds | src/ft9201.c:304-312 | a failed transfer ends the opening except in the five optional reads of the legacy bring-up |
| BringupTheory.HandshakeDisciplined | src/ft9201.c:457-475 | the handshake is armed, announced and sized |
| BringupTheory.EnterOk | src/ft9201.c:449-732 | entering any legacy state keeps the bring-up invariant |
| BringupTheory.StepOk | src/ft9201.c:304-732 | every event keeps it |
| BringupTheory.RunOk | src/ft9201.c:304-732 | so does every sequence of events |
| BringupTheory.LegacyRun | src/ft9201.c:395-424 | in every legacy run there are at most 201 polls, no AFE register is written, and the configuration states are never entered |
| BringupTheory.PollDecides | src/ft9201.c:395-424 | the MCU is ready exactly on 0xa5, 0x5a, and given up at the 201st other poll |
| BringupTheory.VerifyDecides | src/ft9201.c:362-392 | the firmware passes exactly when the read-back begins with all of it |
| BringupTheory.ChunkIsSlice | src/ft9201.c:594-602 | chunk k is the k-th 64 bytes of the zero-padded firmware |
| BringupTheory.PiecesFlatten | src/ft9201.c:587-606 | the first k chunks concatenate to the first 64k bytes of the zero-padded firmware |
| BringupTheory.UploadIsFirmware | src/ft9201.c:582-606 | a run past the upload has sent exactly ceil(size/64) chunks, which make up the firmware zero-padded to a multiple of 64 |
| BringupTheory.StepBudget | src/ft9201.c:351-424 | every awaited event lowers the measure of state phase, chunks left and polls left |
| BringupTheory.LegacyEnds | src/ft9201.c:351-424 | no legacy run takes more than 120 + 2 ceil(size/64) + 402 events |
| BringupTheory.LegacyTerminates | src/ft9201.c:351-360 | some bound on the run length exists exactly for firmware of at most 2^32 - 64 bytes |
| Bringup.Opener.constructor | src/ft9201.c:102-130 | a device before it is opened |
| Bringup.Opener.FillChunk | src/ft9201.c:594-598 | clearing and copying leave exactly the padded chunk in the buffer |
| Bringup.Opener.RunState | src/ft9201.c:449-732 | the dispatcher passes over idle states, sleeps or submits as specified |
| Bringup.Opener.Handle | src/ft9201.c:276-732 | one event on the object is one step of its value |
| Bringup.Opener.Run | src/ft9201.c:276-732 | any sequence of events on the object is the run of its value |
| Session.SessionDiscipline | src/ft9201.c:457-999 | open and scans together: the handshake, then captures in order; armed, announced, no uploads; sized exactly for 5120-byte frames or when none was read |
| Session.SessionSized | src/ft9201.c:276-302 | all reads of all sessions have the announced length exactly when the sensor reports 5120 pixels |
| Session.OpenAndUse | src/ft9201.c:737-759 | the same of the two objects, for every behaviour of the sensor and any operations, with the acts in protocol |
| Engine.LastAddedIs | src/ft_engine.c:516-523 | the record kept is that of the last admissible AddRecord |
| Engine.NothingAdded | src/ft_engine.c:521 | none is kept exactly when no AddRecord was admissible |
| Engine.Wrapper.constructor | src/ft_engine.c:487-490 | the store starts empty |
| Engine.Wrapper.Handle | src/ft_engine.c:494-523 | each storage callback's effect on template, identity and presence, and its answer |
| Engine.Wrapper.Oracle | src/ft_engine.c:494-523 | whatever the library calls, each answer tells what has been stored so far |
| Engine.Wrapper.EnrollBegin | src/ft_engine.c:587-592 | nothing of an earlier session is visible any more |
| Engine.Wrapper.Accept | src/ft_engine.c:578-585 | an accept changes the record only through callbacks |
| Engine.Wrapper.EnrollUpdate | src/ft_engine.c:594-602 | 2 exactly for a rejected frame, 0 exactly for a complete template, and the status is asked only for a frame that was not rejected |
| Engine.Wrapper.EnrollCommit | src/ft_engine.c:606-615 | success exactly when the engine succeeded, a record was added during this commit and memory sufficed; the bytes are those of the last one, 1 to 2^20 long |
| Engine.Wrapper.Verify | src/ft_engine.c:617-626 | a template of inadmissible length is no match and touches nothing; any other is what the engine reads back |
| Engine.VerifyReads | src/ft_engine.c:508-515 | a reader during verification sees the template under test unless the engine itself added a record, and the identity brought last |
| Engine.IdentityReads | src/ft_engine.c:497-521 | a reader sees the identity of the last AddRecord or QueryBySubject that brought one |
| Engine.IdentityKept | src/ft_engine.c:508-515 | or the one from before |
| Engine.RoundTrip | src/ft_engine.c:606-626 | after any history, a commit's bytes are read back exactly by a later verification, whatever longer templates were loaded in between |
| Engine.CommitReads | src/ft_engine.c:508-515 | what a reader during a commit sees |
| Engine.EnrollSession | src/ft_engine.c:587-615 | after any history, every read during a commit sees the last record of this session or nothing, and whether a record exists counts from the commit on |
| Recognition.StepAnswered | src/ft9201.c:1196-1320 | every engine call that a step makes is answered by what the library answers in it |
| Recognition.PlayAct | src/ft_engine.c:578-626 | each engine call of the driver, made on the wrapper, gives the answer the driver acted on |
| Recognition.Serve | src/ft9201.c:1138-1443 | a whole session of driver, wrapper and library: the acts keep to the protocol, and all engine calls went to the wrapper |
| Recognition.EnrolledIsCommitted | src/ft9201.c:1304-1320 | the template an enrollment returns is the last record the library added in its commit |
| Recognition.TemplateComesBack | src/ft_engine.c:606-626 | compared later, in this session or any other, it is never refused for its length, and every read by a library that adds no record itself shows exactly the committed bytes |
| Recognition.EnrollThenCompare | src/ft9201.c:1218-1320 | so it is for two sessions of the objects, with anything done to the wrapper before and between them |
| Frame.NativeFrame | src/ft_engine.c:459-466 | a 64x80 frame goes through unchanged, cropped or scaled |
| Frame.PreparedShows | src/ft_engine.c:453-466 | for a picture given row by row, output pixel (x, y) is the one at the centre window's place, or the one whose share of the picture holds it |
| Frame.CropIsCentred | src/ft_engine.c:461-462 | the crop is one window, centred to within a pixel |
| Frame.ScaleReachesAll | src/ft_engine.c:453 | nearest neighbour reaches every source position exactly when it does not shrink |
| Frame.ScalingIsLossless | src/ft_engine.c:453 | scaling uses every source pixel exactly for frames of at most 64x80 |
| Frame.Sampler.constructor | src/ft_engine.c:450-452 | two separate buffers |
| Frame.Sampler.Resize | src/ft_engine.c:453 | every pixel is the scaled one, all reads inside the source |
| Frame.Sampler.Crop | src/ft_engine.c:461-462 | every pixel is the cropped one, all reads inside the source |
| Frame.Sampler.PrepareFrame | src/ft_engine.c:459-466 | crop or scale as size and setting demand |
| Frame.Sampler.BuildBir | src/ft_engine.c:467-478 | the record replaces the start of the buffer on cleared bytes, the rest is untouched |
| Frame.EnvelopeParts | src/ft_engine.c:470-476 | fields and pixels do not overlap |
| Frame.RecordReads | src/ft_engine.c:470-476 | read by its own offsets the record gives back picture, size, resolution and depth |
| Frame.RecordPadding | src/ft_engine.c:468-476 | between the fields only what was in the cleared buffer shows |
| Frame.Sampler.Submit | src/ft_engine.c:578-585 | whatever frames went before, the engine gets 5248 bytes that read back as the prepared frame, zeros between the fields, and the very frame if it is 64x80 |
| FirmwareElf.CheckHeaders | scripts/extract-firmware.py:34-47 | the header checks succeed exactly for little-endian ELF64 objects with a whole section table in the file |
| FirmwareElf.HexNumberBack | scripts/extract-firmware.py:68 | a zero-padded hexadecimal number reads back |
| SymbolListing.WordsBack | scripts/extract-firmware.py:59-60 | words put between separators come out as they were |
| SymbolListing.WordsCut | scripts/extract-firmware.py:59-60 | and every text is its words put between separators |
| SymbolListing.TableBack | scripts/extract-firmware.py:59-60 | a printed listing reads back as its rows and fields |
| FirmwareElf.PrintedListing | scripts/extract-firmware.py:58-77 | on a listing as printed, the symbol's row is found exactly when it is listed once with a positive size, and gives the address and size that were printed |
| FirmwareElf.MatchRows | scripts/extract-firmware.py:58-77 | from the listing's text, an address and size result exactly when the symbol is named once, in a line of at least four fields with numbers and a positive size |
| FirmwareElf.MatchSections | scripts/extract-firmware.py:79-91 | a section results exactly when one covers the address and all file-backed sections lie in the file |
| FirmwareElf.ReadFirmware | scripts/extract-firmware.py:26-101 | from the file and the listing's text, bytes result exactly when the symbol is located once, wholly in one file-backed section, and they are its slice of that section |
| FirmwareElf.NumbersRead | scripts/extract-firmware.py:68 | signs, prefix and underscores as Python takes them |
| ElfLayout.AcceptedExactly | scripts/extract-firmware.py:34-47 | the checks pass exactly on the written file header's conditions |
| ElfLayout.SaysPart | scripts/extract-firmware.py:79-83 | a written section header is read back with its type, address, offset and size |
| ElfLayout.ExtractWritten | scripts/extract-firmware.py:26-101 | from written headers and a printed listing, the bytes returned are those at the section's offset plus the distance of the symbol from the section's address, exactly when the symbol is placed |
| FirmwareText.RowsAre | scripts/extract-firmware.py:113-114 | row k prints bytes 12k on, at least one and at most twelve, and there are ceil(n/12) rows |
| FirmwareText.ScanRow | scripts/extract-firmware.py:114 | a row reads back to its bytes |
| FirmwareText.BytesPrinted | scripts/extract-firmware.py:114 | two bytes as they are printed, character by character |
| FirmwareText.SizePrinted | scripts/extract-firmware.py:115 | a size as it is printed |
| FirmwareText.NumberBack | scripts/extract-firmware.py:115 | the printed size reads back |
| FirmwareText.SplitBack | scripts/extract-firmware.py:119 | splitting the text at newlines gives back its lines |
| FirmwareText.HeaderBack | scripts/extract-firmware.py:108-119 | reading the header text gives the firmware and its length |
| FirmwareText.WriteHeader | scripts/extract-firmware.py:104-119 | empty firmware is refused, any other is printed so that it reads back |

## Left out

- ImportTheory.ApartTablesHaveNoHazard: a sufficient layout; on tables that overlap otherwise `Loader.LoadAndBind` speaks as long as no access touches an earlier store, and `ImportSpec.RunImports` says what binding does in any case.
- BoundImage.BindWritten: for headers that start below 2^32 - 84, where no 32-bit sum wraps; on all other files `Loader.LoadAndBind` speaks of the fields as the loader reads them.
- ExportLayout.GetWritten: for headers that start below 2^32 - 140; on all other files `Exports.GetExport` speaks.
- Loader.LoadAndBind: stops before thread-local storage, the entry point and the fake thread block, whose foreign code runs next.
- Exports.GetExport: on the memory as it stands, which the vendor code that runs between binding and export lookup may have changed.
- Frame.Sampler.PrepareFrame: takes frames with positive dimensions and width times height bytes, which is what its caller passes.
- Engine.Wrapper.Oracle: callbacks bring the bytes their pointers show when they are made, in the adapter's own record or elsewhere; only a copy whose source and destination overlap, which C does not define for memcpy, is left out.
- Engine.Wrapper.Handle: the same; and the sub-factor argument, which the adapter ignores, is left out.
- FirmwareElf.ReadFirmware: takes the text of the symbol listing; running the listing tool and the error messages are left out.
- FirmwareElf.MatchRows: numbers are read as Python reads ASCII digits; its other digits are left out.
- FirmwareText.WriteHeader: yields the text; the temporary file and its atomic replacement are left out.
- Driver.Ft9201.Handle: cancellation is one of the transfer failures; timeouts, real delays, object lifetimes and reference counts of libfprint are left out.
- BringupTheory.LegacyTerminates: counts events; how long the sensor takes to produce each is left out.
- The vendor library's own code: an oracle that answers anything and may call the storage adapter.
- The bodies of the kernel32 shims and of the unbuilt cryptography shims: constant-returning stubs.
- Opening the engine again after a failure, which registers the shims a second time.
- Closing a device, the accumulation buffers nobody uses, logging, shell scripts, packaging and compatibility shims.
- Environment variables appear as parameters: `force` for scaling, `useFpn` for background correction.
