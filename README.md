# Kotlin/Native coverage writer and Objective-C export decisions, in Dafny

This project models two parts of the Kotlin/Native compiler backend.

**The LLVM coverage-mapping writer** (`LLVMCoverageWriter`). The writer takes the
coverage information the front end collected: per source file, its functions;
per function, its regions and each region's counter id. From that it builds the
module's coverage global:

- it numbers the source files (`filesIndex`, built by `toMap`, so the last
  occurrence of a file wins);
- it fills one `LLVMCoverageRegion` record per region (`populateFrom`);
- it collects the distinct owning-file ids of each function;
- it writes one function coverage and one mapping record per function;
- it builds the filename table;
- it emits the global and appends it to `usedGlobals`.

Where the Kotlin code changes state, the model is imperative:

- `LLVMCoverageRegion` is a class whose `PopulateFrom` assigns its eight fields in place.
- `Context.usedGlobals` is a field that `LLVMCoverageWriter.Write` appends to.
- Each loop of `write` is a method. Each method is proved equal to a specification
  function (`EncodeRegions`, `FunctionFileIds`, `EncodeFunction`, `FilesIndex`,
  `Functions`, `EncodeFunctions`, `FilenameTable`, `CoverageGlobalOf`).

The lemmas then characterise those functions:

- when the global is emitted, and when a lookup throws;
- that every encoded region decodes back to its region, with the counter id `regionEnumeration` gives it;
- the order and the ids of the filename table;
- the order of records and file ids.

The LLVM C calls are modelled as constructors that keep their arguments:

| C call | model |
|---|---|
| `LLVMWriteCoverageRegionMapping` | `FunctionCoverage` |
| `LLVMAddFunctionMappingRecord` | `MappingRecord` |
| `LLVMCoverageEmit` | `CoverageGlobal` |

Exceptions become a `Failure`:

- `error("LLVM module should be initialized.")` → `ModuleNotInitialized`
- `getValue` on a file without an id → `MissingFile`
- `getValue` on a region without a counter → `MissingCounter`

**The Objective-C export decisions** (`ObjCExport`). These are the pure choices
the exporter makes:

- whether an exported interface is produced at all (`produceInterface`);
- where a framework's contents live for each target family;
- the framework name and the umbrella header name;
- the target-dependent parts of Info.plist: the directory, the
  `CFBundleSupportedPlatforms` value, `MinimumOSVersion`, and `UIRequiredDeviceCapabilities`;
- `guessMainPackage`, the package the bundle identifier is built on.

A `KotlinCollections` module states the Kotlin collection semantics the code
relies on:

- `toMap` keeps keys in first-insertion order and the last value wins;
- `distinct` and `toSet` keep first occurrences in order;
- `filter` keeps every kept element in its place, as often as it occurs;
- `maxBy` returns the first maximal element.

The model follows the code on two points a reader might expect otherwise:

- A function's file ids are only the ids of its regions' own files
  (`LLVMCoverageWriter.kt:48`). Files that are only expansion targets are not
  among them. In a function of file A with an expansion of file B, the file ids
  are `[0]`, not `[0, 1]`. `CoverageWriter.WorkedExample` proves this case.
- A file that occurs twice in the input gets its last position as its id
  (`toMap`, line 40), while it keeps its first place in the filename table. The
  ids are therefore dense only when no file repeats
  (`CoverageWriter.CoverageGlobalDenseFilenameTable`).

Files: `wrappers.dfy` (Option, Result, Outcome), `collections.dfy` (module
`KotlinCollections`), `coverage_model.dfy` (module `CoverageModel`, the input
data), `coverage_writer.dfy` (module `CoverageWriter`), `objc_export.dfy`
(module `ObjCExport`).

## Model

| member | source | states |
|---|---|---|
| CoverageWriter.ToLLVMCoverageRegionKind | backend.native/compiler/ir/backend.native/src/org/jetbrains/kotlin/backend/konan/llvm/coverage/LLVMCoverageWriter.kt:10-14 | Code, Gap and Expansion map to CODE, GAP and EXPANSION respectively, each in both directions |
| CoverageWriter.EncodeRegion | backend.native/compiler/ir/backend.native/src/org/jetbrains/kotlin/backend/konan/llvm/coverage/LLVMCoverageWriter.kt:16-25 | succeeds iff the region's file, and for an expansion also the expanded file, has an id. The failure names the region's own file when that is missing, else the expanded file. On success the record has the file's id, the given counter id, the mapped kind, and the expanded file's id (0 for code and gap regions) |
| CoverageWriter.LLVMCoverageRegion.PopulateFrom | backend.native/compiler/ir/backend.native/src/org/jetbrains/kotlin/backend/konan/llvm/coverage/LLVMCoverageWriter.kt:16-25 | fills the struct's fields in place with exactly the record `EncodeRegion` describes, or fails with its error. A missing own file leaves the struct untouched. A missing expanded file leaves the seven fields assigned before it, while `expandedFileId` keeps its old value |
| CoverageWriter.EncodeRegionRoundTrip | backend.native/compiler/ir/backend.native/src/org/jetbrains/kotlin/backend/konan/llvm/coverage/LLVMCoverageWriter.kt:16-25 | decoding an encoded region against the input's file list gives back the original region |
| CoverageWriter.ExpandedFileIdZeroIsShared | backend.native/compiler/ir/backend.native/src/org/jetbrains/kotlin/backend/konan/llvm/coverage/LLVMCoverageWriter.kt:24 | a code or gap region and an expansion of the file with id 0 get the same expandedFileId 0; only the kind tells them apart |
| CoverageWriter.FilesIndex | backend.native/compiler/ir/backend.native/src/org/jetbrains/kotlin/backend/konan/llvm/coverage/LLVMCoverageWriter.kt:40 | the index lists the input's files once each, in order of first appearance; each file's id is its last position in the input |
| CoverageWriter.FilesIndexDomain | backend.native/compiler/ir/backend.native/src/org/jetbrains/kotlin/backend/konan/llvm/coverage/LLVMCoverageWriter.kt:40 | a file has an id iff it is one of the input's files |
| CoverageWriter.FilesIndexDense | backend.native/compiler/ir/backend.native/src/org/jetbrains/kotlin/backend/konan/llvm/coverage/LLVMCoverageWriter.kt:40 | with no file repeated, the file at position i has id i and the index lists the files in input order |
| CoverageWriter.IndexFiles | backend.native/compiler/ir/backend.native/src/org/jetbrains/kotlin/backend/konan/llvm/coverage/LLVMCoverageWriter.kt:40 | the loop that puts each file with its position builds exactly `FilesIndex` |
| CoverageWriter.Functions | backend.native/compiler/ir/backend.native/src/org/jetbrains/kotlin/backend/konan/llvm/coverage/LLVMCoverageWriter.kt:44 | the functions of all files, file by file and in declaration order within a file, and nothing else; stated by `CoverageWriter.FunctionsAppend`, `CoverageWriter.FunctionsOfOne`, `CoverageWriter.FunctionsAt` and `CoverageWriter.FlattenFunctions` |
| CoverageWriter.FunctionsAt | backend.native/compiler/ir/backend.native/src/org/jetbrains/kotlin/backend/konan/llvm/coverage/LLVMCoverageWriter.kt:44 | the flattened function list holds file i's function j right after the functions of files 0 to i-1 |
| CoverageWriter.FunctionsAppend | backend.native/compiler/ir/backend.native/src/org/jetbrains/kotlin/backend/konan/llvm/coverage/LLVMCoverageWriter.kt:44 | flattening two lists of files one after the other gives the two flattened lists concatenated |
| CoverageWriter.FunctionsOfOne | backend.native/compiler/ir/backend.native/src/org/jetbrains/kotlin/backend/konan/llvm/coverage/LLVMCoverageWriter.kt:44 | a single file contributes exactly its own functions, in order |
| CoverageWriter.FlattenFunctions | backend.native/compiler/ir/backend.native/src/org/jetbrains/kotlin/backend/konan/llvm/coverage/LLVMCoverageWriter.kt:44 | the loop computes the `flatMap { it.functions }` list |
| CoverageWriter.EncodeFunctionRegion | backend.native/compiler/ir/backend.native/src/org/jetbrains/kotlin/backend/konan/llvm/coverage/LLVMCoverageWriter.kt:46 | a region fails with a missing counter when `regionEnumeration` has none, otherwise it is encoded with its counter id; stated by `CoverageWriter.EncodeFunctionRegionSucceedsIff` and `CoverageWriter.CoverageGlobalRegionAt` |
| CoverageWriter.EncodeRegions | backend.native/compiler/ir/backend.native/src/org/jetbrains/kotlin/backend/konan/llvm/coverage/LLVMCoverageWriter.kt:45-47 | succeeds iff every region has a counter and encodes; then region i becomes record i. Otherwise the error is that of the first region that fails |
| CoverageWriter.EncodeFunctionRegions | backend.native/compiler/ir/backend.native/src/org/jetbrains/kotlin/backend/konan/llvm/coverage/LLVMCoverageWriter.kt:45-47 | allocating and populating one struct per region, stopping at the first exception, yields exactly `EncodeRegions` |
| CoverageWriter.FunctionFileIds | backend.native/compiler/ir/backend.native/src/org/jetbrains/kotlin/backend/konan/llvm/coverage/LLVMCoverageWriter.kt:48 | the file ids have no duplicates, and an id is listed iff it is the id of some region's own file |
| CoverageWriter.FunctionFileIdsInOrderOfFirstUse | backend.native/compiler/ir/backend.native/src/org/jetbrains/kotlin/backend/konan/llvm/coverage/LLVMCoverageWriter.kt:48 | file ids appear in the order of the first region that uses each |
| CoverageWriter.CollectFileIds | backend.native/compiler/ir/backend.native/src/org/jetbrains/kotlin/backend/konan/llvm/coverage/LLVMCoverageWriter.kt:48 | the loop that keeps each owning-file id on first sight computes `FunctionFileIds` |
| CoverageWriter.EncodeFunction | backend.native/compiler/ir/backend.native/src/org/jetbrains/kotlin/backend/konan/llvm/coverage/LLVMCoverageWriter.kt:44-56 | a function's record carries its symbol name, its unchanged hash and its coverage of all regions and distinct owning file ids; stated by `CoverageWriter.EncodeFunctionSucceedsIff`, `CoverageWriter.WriteFunction` and `CoverageWriter.CoverageGlobalRecords` |
| CoverageWriter.WriteFunction | backend.native/compiler/ir/backend.native/src/org/jetbrains/kotlin/backend/konan/llvm/coverage/LLVMCoverageWriter.kt:44-56 | computes the function's coverage (file ids, then regions) and its mapping record (symbol name, structural hash, coverage) exactly as `EncodeFunction`, failing with the first region's error |
| CoverageWriter.EncodeFunctionRegionSucceedsIff | backend.native/compiler/ir/backend.native/src/org/jetbrains/kotlin/backend/konan/llvm/coverage/LLVMCoverageWriter.kt:46 | a region encodes iff it has a counter and its file, and any expanded file, are among the input's files |
| CoverageWriter.EncodeFunctionSucceedsIff | backend.native/compiler/ir/backend.native/src/org/jetbrains/kotlin/backend/konan/llvm/coverage/LLVMCoverageWriter.kt:44-56 | a function encodes iff every one of its regions does |
| CoverageWriter.EncodeFunctions | backend.native/compiler/ir/backend.native/src/org/jetbrains/kotlin/backend/konan/llvm/coverage/LLVMCoverageWriter.kt:44-57 | succeeds iff every function encodes; then pair k is function k's. Otherwise the error is that of the first function that fails |
| CoverageWriter.WriteFunctions | backend.native/compiler/ir/backend.native/src/org/jetbrains/kotlin/backend/konan/llvm/coverage/LLVMCoverageWriter.kt:44-57 | the loop over functions, unzipped, gives the records and coverages of `EncodeFunctions` or its error |
| CoverageWriter.FilenameTable | backend.native/compiler/ir/backend.native/src/org/jetbrains/kotlin/backend/konan/llvm/coverage/LLVMCoverageWriter.kt:59 | entry i is the name of the index's i-th file beside that file's id |
| CoverageWriter.WriteFilenameTable | backend.native/compiler/ir/backend.native/src/org/jetbrains/kotlin/backend/konan/llvm/coverage/LLVMCoverageWriter.kt:59 | the loop produces the two unzipped lists of `FilenameTable` |
| CoverageWriter.CoverageGlobalOf | backend.native/compiler/ir/backend.native/src/org/jetbrains/kotlin/backend/konan/llvm/coverage/LLVMCoverageWriter.kt:40-63 | what a non-empty `write` emits: records and coverages of the flattened functions and the filename table, or the first failure; stated by `CoverageWriter.CoverageGlobalSucceedsIff`, `CoverageWriter.CoverageGlobalRecords`, `CoverageWriter.CoverageGlobalRegionAt`, `CoverageWriter.CoverageGlobalFilenameTable` and `CoverageWriter.LLVMCoverageWriter.Write` |
| CoverageWriter.CoverageGlobalSucceedsIff | backend.native/compiler/ir/backend.native/src/org/jetbrains/kotlin/backend/konan/llvm/coverage/LLVMCoverageWriter.kt:40-64 | the global is emitted iff every region of every function has a counter and names only files of the input |
| CoverageWriter.CoverageGlobalRecords | backend.native/compiler/ir/backend.native/src/org/jetbrains/kotlin/backend/konan/llvm/coverage/LLVMCoverageWriter.kt:44-63 | the global goes to the given module. It has one record and one coverage per flattened function, in order. Each record carries the symbol name, the unchanged structural hash and the coverage. Each coverage has one region per region and the function's distinct file ids |
| CoverageWriter.CoverageGlobalRegionAt | backend.native/compiler/ir/backend.native/src/org/jetbrains/kotlin/backend/konan/llvm/coverage/LLVMCoverageWriter.kt:44-63 | region j of function k carries the counter id `regionEnumeration` gives it and decodes back to that region |
| CoverageWriter.CoverageGlobalFilenameTable | backend.native/compiler/ir/backend.native/src/org/jetbrains/kotlin/backend/konan/llvm/coverage/LLVMCoverageWriter.kt:59-62 | the filename table lists each input file once, in order of first appearance, beside its last position |
| CoverageWriter.CoverageGlobalDenseFilenameTable | backend.native/compiler/ir/backend.native/src/org/jetbrains/kotlin/backend/konan/llvm/coverage/LLVMCoverageWriter.kt:59-62 | with no file repeated, the table is the input's file names with ids 0 to n-1 |
| CoverageWriter.WorkedExample | backend.native/compiler/ir/backend.native/src/org/jetbrains/kotlin/backend/konan/llvm/coverage/LLVMCoverageWriter.kt:40-63 | for file A with a code region and an expansion of B, followed by file B: the global has one record for f with file ids [0], counters 0 and 1, expanded id 1, and the table ["A", "B"] with ids [0, 1] |
| CoverageWriter.SingleFunctionGlobal | backend.native/compiler/ir/backend.native/src/org/jetbrains/kotlin/backend/konan/llvm/coverage/LLVMCoverageWriter.kt:44-63 | with one function in the input, the global holds that function's record and coverage and the input's filename table |
| CoverageWriter.LLVMCoverageWriter.Write | backend.native/compiler/ir/backend.native/src/org/jetbrains/kotlin/backend/konan/llvm/coverage/LLVMCoverageWriter.kt:35-66 | empty input: nothing happens. No LLVM module: fails with ModuleNotInitialized. Otherwise either appends exactly `CoverageGlobalOf` to `usedGlobals`, or fails with its error and appends nothing |
| KotlinCollections.ToMap | backend.native/compiler/ir/backend.native/src/org/jetbrains/kotlin/backend/konan/llvm/coverage/LLVMCoverageWriter.kt:40 | the map's keys are the pairs' first components, once each, in order of first appearance |
| KotlinCollections.ToMapLastWins | backend.native/compiler/ir/backend.native/src/org/jetbrains/kotlin/backend/konan/llvm/coverage/LLVMCoverageWriter.kt:40 | a key's value is the one from its last pair |
| KotlinCollections.Distinct | backend.native/compiler/ir/backend.native/src/org/jetbrains/kotlin/backend/konan/objcexport/ObjCExport.kt:272-274 | no duplicates; an element is kept iff it occurs in the input |
| KotlinCollections.DistinctKeepsFirstOccurrenceOrder | backend.native/compiler/ir/backend.native/src/org/jetbrains/kotlin/backend/konan/objcexport/ObjCExport.kt:272-274 | elements are kept in the order of their first occurrence |
| KotlinCollections.DistinctOfDistinct | backend.native/compiler/ir/backend.native/src/org/jetbrains/kotlin/backend/konan/llvm/coverage/LLVMCoverageWriter.kt:40 | a list without duplicates is left unchanged |
| KotlinCollections.Filter | backend.native/compiler/ir/backend.native/src/org/jetbrains/kotlin/backend/konan/objcexport/ObjCExport.kt:271 | an element is kept iff it is in the input and satisfies the predicate |
| KotlinCollections.FilterKeepsOrder | backend.native/compiler/ir/backend.native/src/org/jetbrains/kotlin/backend/konan/objcexport/ObjCExport.kt:275 | the first occurrences of kept elements keep their relative order |
| KotlinCollections.FilterKeepsMultiplicity | backend.native/compiler/ir/backend.native/src/org/jetbrains/kotlin/backend/konan/objcexport/ObjCExport.kt:271 | a kept element occurs exactly as often as in the input, a dropped one not at all |
| KotlinCollections.FilterAppend | backend.native/compiler/ir/backend.native/src/org/jetbrains/kotlin/backend/konan/objcexport/ObjCExport.kt:271 | filtering a concatenation is filtering each part, so every kept element stays in its place |
| KotlinCollections.FilterOfOne | backend.native/compiler/ir/backend.native/src/org/jetbrains/kotlin/backend/konan/objcexport/ObjCExport.kt:271 | a single element is kept exactly when it satisfies the predicate |
| KotlinCollections.MaxBy | backend.native/compiler/ir/backend.native/src/org/jetbrains/kotlin/backend/konan/objcexport/ObjCExport.kt:277 | none iff the list is empty; otherwise an element with the greatest key, and every element before it has a strictly smaller key |
| ObjCExport.FamilyOf | backend.native/compiler/ir/backend.native/src/org/jetbrains/kotlin/backend/konan/objcexport/ObjCExport.kt:40 | the three iOS targets are family IOS and MACOS_X64 is OSX, each in both directions |
| ObjCExport.ProduceInterface | backend.native/compiler/ir/backend.native/src/org/jetbrains/kotlin/backend/konan/objcexport/ObjCExport.kt:39-64 | an interface only for an Apple target, a native binary and the FRAMEWORK kind, and then the generator's; stated by `ObjCExport.ProduceInterfaceGating` |
| ObjCExport.ProduceInterfaceGating | backend.native/compiler/ir/backend.native/src/org/jetbrains/kotlin/backend/konan/objcexport/ObjCExport.kt:39-64 | an interface is produced iff the target family is IOS or OSX, the output is a native binary and it is a FRAMEWORK; it is then the generator's |
| ObjCExport.FileName | backend.native/compiler/ir/backend.native/src/org/jetbrains/kotlin/backend/konan/objcexport/ObjCExport.kt:141 | the name is the path's last segment: a suffix of the path that has no '/' and is preceded by '/' unless it is the whole path |
| ObjCExport.RemoveSuffix | backend.native/compiler/ir/backend.native/src/org/jetbrains/kotlin/backend/konan/objcexport/ObjCExport.kt:141 | with the suffix present, appending it back gives the input; otherwise the input is unchanged |
| ObjCExport.FrameworkContents | backend.native/compiler/ir/backend.native/src/org/jetbrains/kotlin/backend/konan/objcexport/ObjCExport.kt:132-137 | the framework root for iOS, `Versions/A` below it for macOS; any other family is an error naming the target |
| ObjCExport.FrameworkLayoutOf | backend.native/compiler/ir/backend.native/src/org/jetbrains/kotlin/backend/konan/objcexport/ObjCExport.kt:131-147 | the contents (framework root for iOS, `Versions/A` for macOS), `Headers` and `Modules` under them, the header under `Headers`, and the framework and header names, or the target as error for other families; stated by `ObjCExport.FrameworkLayoutPaths`, `ObjCExport.FrameworkNames` and `ObjCExport.ExportedInterfaceHasFramework` |
| ObjCExport.FrameworkNames | backend.native/compiler/ir/backend.native/src/org/jetbrains/kotlin/backend/konan/objcexport/ObjCExport.kt:139-147 | the framework name is the output file's name without `.framework`, and contains no '/'. The header is that name with `.h`, in `Headers` under the contents |
| ObjCExport.FrameworkLayoutPaths | backend.native/compiler/ir/backend.native/src/org/jetbrains/kotlin/backend/konan/objcexport/ObjCExport.kt:131-147 | the layout exists iff the family is Apple, failing with the target otherwise; contents are the root for iOS and `Versions/A` for macOS; `Headers` and `Modules` sit directly under the contents and the header under `Headers` |
| ObjCExport.Platform | backend.native/compiler/ir/backend.native/src/org/jetbrains/kotlin/backend/konan/objcexport/ObjCExport.kt:182-187 | defined exactly for the four Apple targets; any other target is an error naming it |
| ObjCExport.InfoPlistDirectory | backend.native/compiler/ir/backend.native/src/org/jetbrains/kotlin/backend/konan/objcexport/ObjCExport.kt:172-176 | the contents for iOS, their `Resources` for MACOS_X64, the target as error otherwise; stated by `ObjCExport.InfoPlistChoicesForTargets` |
| ObjCExport.InfoPlistChoicesOf | backend.native/compiler/ir/backend.native/src/org/jetbrains/kotlin/backend/konan/objcexport/ObjCExport.kt:171-254 | directory, platform, minimum OS version and device capability per Apple target, the target as error otherwise; stated by `ObjCExport.InfoPlistChoicesForTargets` |
| ObjCExport.InfoPlistChoicesForTargets | backend.native/compiler/ir/backend.native/src/org/jetbrains/kotlin/backend/konan/objcexport/ObjCExport.kt:171-254 | Info.plist's target-dependent choices are defined iff the target is one of the four Apple targets. The device targets give "iPhoneOS", the simulator "iPhoneSimulator", macOS "MacOSX" under `Resources`. Only iOS declares MinimumOSVersion; only the device targets name a capability (armv7, arm64) |
| ObjCExport.ExportedInterfaceHasFramework | backend.native/compiler/ir/backend.native/src/org/jetbrains/kotlin/backend/konan/objcexport/ObjCExport.kt:118-187 | whenever an interface is exported, the framework layout and Info.plist never reach `error(target)` |
| ObjCExport.NonEmptyPackagesAre | backend.native/compiler/ir/backend.native/src/org/jetbrains/kotlin/backend/konan/objcexport/ObjCExport.kt:270-272 | a name is a non-empty package iff some fragment with that name contributes descriptors |
| ObjCExport.CandidatesAre | backend.native/compiler/ir/backend.native/src/org/jetbrains/kotlin/backend/konan/objcexport/ObjCExport.kt:274-275 | a name is a candidate iff it is a package of the module and an ancestor of every non-empty package |
| ObjCExport.GuessMainPackage | backend.native/compiler/ir/backend.native/src/org/jetbrains/kotlin/backend/konan/objcexport/ObjCExport.kt:267-278 | the first of the longest module packages that are ancestors of every non-empty package, none where `!!` throws; stated by `ObjCExport.GuessMainPackageIsCommonAncestor`, `ObjCExport.GuessMainPackageIsLongest`, `ObjCExport.GuessMainPackageDefinedIff`, `ObjCExport.GuessMainPackageIsLeastCommonAncestor` and `ObjCExport.GuessMainPackageIsFirstOfLongest` |
| ObjCExport.GuessMainPackageIsCommonAncestor | backend.native/compiler/ir/backend.native/src/org/jetbrains/kotlin/backend/konan/objcexport/ObjCExport.kt:267-278 | the guess is one of the module's packages and an ancestor of, or equal to, every non-empty package |
| ObjCExport.GuessMainPackageIsLongest | backend.native/compiler/ir/backend.native/src/org/jetbrains/kotlin/backend/konan/objcexport/ObjCExport.kt:276-277 | no common ancestor has a longer string form than the guess |
| ObjCExport.GuessMainPackageDefinedIff | backend.native/compiler/ir/backend.native/src/org/jetbrains/kotlin/backend/konan/objcexport/ObjCExport.kt:268-277 | the guess exists (`!!` does not throw) iff some package qualifies; it always exists when the root package is among the fragments |
| ObjCExport.AncestorIsShorter | backend.native/compiler/ir/backend.native/src/org/jetbrains/kotlin/backend/konan/objcexport/ObjCExport.kt:276 | a strict ancestor of a well-formed name has a strictly shorter string form |
| ObjCExport.GuessMainPackageIsLeastCommonAncestor | backend.native/compiler/ir/backend.native/src/org/jetbrains/kotlin/backend/konan/objcexport/ObjCExport.kt:276 | with some non-empty package, every qualifying package is an ancestor of the guess: it is the least common ancestor |
| ObjCExport.GuessMainPackageIsFirstOfLongest | backend.native/compiler/ir/backend.native/src/org/jetbrains/kotlin/backend/konan/objcexport/ObjCExport.kt:274-277 | a qualifying package listed before the guess has a strictly shorter string form |
| ObjCExport.GuessMainPackageWithoutNonEmptyPackages | backend.native/compiler/ir/backend.native/src/org/jetbrains/kotlin/backend/konan/objcexport/ObjCExport.kt:270-277 | with no non-empty package, every package qualifies and the guess is one with the longest string form |
| ObjCExport.BundleId | backend.native/compiler/ir/backend.native/src/org/jetbrains/kotlin/backend/konan/objcexport/ObjCExport.kt:180 | the framework name as a child of the guessed package, in string form; stated by `ObjCExport.BundleIdForm` |
| ObjCExport.BundleIdForm | backend.native/compiler/ir/backend.native/src/org/jetbrains/kotlin/backend/konan/objcexport/ObjCExport.kt:180 | the bundle id is the package's string form, a dot and the framework name, or the bare name under the root package |

## Left out

- Native memory: `memScoped` and `alloc` are left out, and so are the C pointers and the records' `char*` that are never freed. A struct is an object, and the C arrays are sequences.
- The LLVM calls are left out: the binary coverage-mapping format that `LLVMWriteCoverageRegionMapping` and `LLVMCoverageEmit` produce, and the module context lookup. The `!!` on their results is taken to succeed, since that code is foreign.
- `regions` of a function: only the map's values are kept, in the map's iteration order. Its keys are not used by the writer.
- `context.llvm.usedGlobals` holds other globals as well. The model keeps a list of coverage globals only.
- Integer widths: the structural hash (a `Long`), line, column and counter values are unbounded integers. `signExtend` of the sizes does not change any value that occurs.
- `recordRetainedDescriptors`: a DFS over compiler descriptors whose classes are not part of this model.
- `generate` is left out. It calls the code generator and `emitRtti`, foreign code not part of this model. It repeats the first two of `produceInterface`'s three conditions, the Apple family and `isNativeBinary`, but not the FRAMEWORK condition, so `emitRtti` runs for every native binary on an Apple target.
- Header translation (`ObjCExportHeaderGeneratorImpl`, the namer and the mapper): they are not part of this model. The generated interface is a parameter.
- File-system effects: `mkdirs`, `writeLines`, `writeBytes` and the macOS `Versions/Current` symlinks are left out. The text of the module map and the Info.plist templates is left out too; only the target-dependent choices are modelled.
- `emitInfoPlist` also calls `guessMainPackage()` between the directory and the platform choices, and its `!!` throws when no package qualifies. `ObjCExport.InfoPlistChoicesOf` does not take the package fragments, so it does not capture that failure; `ObjCExport.GuessMainPackageDefinedIff` states when it happens.
- `minimumOsVersion` comes from the platform configurables. Only whether it is written is modelled.
- `isNativeBinary`, `KonanTarget.family` and `FqName.isSubpackageOf` are defined outside these files. They are modelled as follows:
  - native binaries are PROGRAM, DYNAMIC, STATIC and FRAMEWORK;
  - the Apple targets are the three iOS targets and MACOS_X64;
  - a package is a subpackage of its ancestors and of itself.
- Regions are compared by value: `regionEnumeration` is a map keyed by the region's fields, so two regions of one function with equal file, span and kind share one counter id. The `Region` class is not part of these files, so whether Kotlin compares regions by identity is not modelled.
- ObjCExport.FileName: splits on '/' only. It does not model `File` path normalisation or other separators.
- The coverage sample's Gradle build script is not part of this model.
