/** The coverage-mapping writer: it numbers the module's source files, turns
    each function's regions into LLVM coverage-region records, wraps them into
    one mapping record per function, emits the module's coverage global with
    the filename table, and keeps that global alive through `usedGlobals`.

    The LLVM C calls are modelled as constructors that keep what they are
    given: LLVMWriteCoverageRegionMapping as `FunctionCoverage`,
    LLVMAddFunctionMappingRecord as `MappingRecord`, LLVMCoverageEmit as
    `CoverageGlobal`. */
module CoverageWriter {
  import opened Wrappers
  import opened KotlinCollections
  import opened CoverageModel

  /** The region kinds of the LLVM coverage mapping format. */
  datatype LLVMCoverageRegionKind = CODE | GAP | EXPANSION

  /** Why `write` stops: the exceptions the source throws. */
  datatype Failure =
    | ModuleNotInitialized           // `error("LLVM module should be initialized.")`
    | MissingFile(file: IrFile)      // `filesIndex.getValue` on a file that has no id
    | MissingCounter(region: Region) // `regionEnumeration.getValue` on a region without a counter

  /** The LLVM module that receives the coverage global, by identity. */
  datatype LLVMModule = LLVMModule(id: nat)

  /** The eight fields of an LLVMCoverageRegion record. */
  datatype EncodedRegion = EncodedRegion(
    fileId: int,
    lineStart: int,
    columnStart: int,
    lineEnd: int,
    columnEnd: int,
    counterId: int,
    kind: LLVMCoverageRegionKind,
    expandedFileId: int)

  /** What LLVMWriteCoverageRegionMapping is given: the file ids, then the regions. */
  datatype FunctionCoverage = FunctionCoverage(fileIds: seq<int>, regions: seq<EncodedRegion>)

  /** What LLVMAddFunctionMappingRecord is given: symbol name, structural hash, coverage. */
  datatype MappingRecord = MappingRecord(name: string, hash: int, coverage: FunctionCoverage)

  /** What LLVMCoverageEmit is given: the module, the mapping records, the
      filename table as two parallel lists, and the function coverages. */
  datatype CoverageGlobal = CoverageGlobal(
    llvmModule: LLVMModule,
    records: seq<MappingRecord>,
    filenames: seq<string>,
    fileIds: seq<int>,
    coverages: seq<FunctionCoverage>)

  // ---------------------------------------------------------------- regions

  /** `RegionKind.toLLVMCoverageRegionKind()`. */
  function ToLLVMCoverageRegionKind(kind: RegionKind): (k: LLVMCoverageRegionKind)
    ensures k == CODE <==> kind.Code?
    ensures k == GAP <==> kind.Gap?
    ensures k == EXPANSION <==> kind.Expansion?
  {
    match kind
    case Code => CODE
    case Gap => GAP
    case Expansion(_) => EXPANSION
  }

  /** `populateFrom` as a value: the file id, the span, the counter id, the
      kind, and the expanded file's id (0 unless the region is an expansion).
      A file missing from the index makes it fail, the region's own file
      being looked up first. */
  function EncodeRegion(region: Region, regionId: int, filesIndex: map<IrFile, int>): (r: Result<EncodedRegion, Failure>)
    ensures r.Success? <==>
      region.file in filesIndex && (region.kind.Expansion? ==> region.kind.expandedFile in filesIndex)
    ensures r.Failure? ==>
      r.error == MissingFile(if region.file !in filesIndex then region.file else region.kind.expandedFile)
    ensures r.Success? ==> r.value.counterId == regionId && r.value.fileId == filesIndex[region.file]
    ensures r.Success? ==> r.value.kind == ToLLVMCoverageRegionKind(region.kind)
    ensures r.Success? ==>
      r.value.expandedFileId == if region.kind.Expansion? then filesIndex[region.kind.expandedFile] else 0
  {
    if region.file !in filesIndex then Failure(MissingFile(region.file))
    else if region.kind.Expansion? && region.kind.expandedFile !in filesIndex then
      Failure(MissingFile(region.kind.expandedFile))
    else
      Success(EncodedRegion(
        filesIndex[region.file],
        region.startLine,
        region.startColumn,
        region.endLine,
        region.endColumn,
        regionId,
        ToLLVMCoverageRegionKind(region.kind),
        if region.kind.Expansion? then filesIndex[region.kind.expandedFile] else 0))
  }

  /** Reads a region record back, given the files in the order their ids
      were assigned from; the independent partner of `EncodeRegion`. */
  function DecodeRegion(e: EncodedRegion, files: seq<IrFile>): Option<Region> {
    if !(0 <= e.fileId < |files|) then None
    else
      var file := files[e.fileId];
      match e.kind
      case CODE => Some(Region(file, e.lineStart, e.columnStart, e.lineEnd, e.columnEnd, Code))
      case GAP => Some(Region(file, e.lineStart, e.columnStart, e.lineEnd, e.columnEnd, Gap))
      case EXPANSION =>
        if 0 <= e.expandedFileId < |files| then
          Some(Region(file, e.lineStart, e.columnStart, e.lineEnd, e.columnEnd, Expansion(files[e.expandedFileId])))
        else None
  }

  // ------------------------------------------------------------ file index

  /** The files of the input, by position. */
  function Files(infos: seq<FileRegionInfo>): (files: seq<IrFile>)
    ensures |files| == |infos| && forall i :: 0 <= i < |infos| ==> files[i] == infos[i].file
  {
    seq(|infos|, i requires 0 <= i < |infos| => infos[i].file)
  }

  /** `filesRegionsInfo.mapIndexed { index, info -> info.file to index }`. */
  function FileIndexPairs(infos: seq<FileRegionInfo>): (pairs: seq<(IrFile, int)>)
    ensures |pairs| == |infos| && forall i :: 0 <= i < |infos| ==> pairs[i] == (infos[i].file, i)
  {
    seq(|infos|, i requires 0 <= i < |infos| => (infos[i].file, i))
  }

  /** `k` is the last position of `f` in the input. */
  ghost predicate IsLastPosition(infos: seq<FileRegionInfo>, f: IrFile, k: int) {
    && 0 <= k < |infos|
    && infos[k].file == f
    && forall j :: k < j < |infos| ==> infos[j].file != f
  }

  /** The file index: `...mapIndexed { ... }.toMap()`. Its keys are the input's
      files in order of first appearance; a file that appears several times
      gets its last position. */
  function FilesIndex(infos: seq<FileRegionInfo>): (index: LinkedMap<IrFile, int>)
    ensures index.Valid()
    ensures index.keys == Distinct(Files(infos))
    ensures forall f :: f in index.values ==> IsLastPosition(infos, f, index.values[f])
  {
    var pairs := FileIndexPairs(infos);
    assert Firsts(pairs) == Files(infos);
    ToMapGivesLastPositions(infos);
    ToMap(pairs)
  }

  lemma ToMapGivesLastPositions(infos: seq<FileRegionInfo>)
    ensures forall f :: f in ToMap(FileIndexPairs(infos)).values ==>
      IsLastPosition(infos, f, ToMap(FileIndexPairs(infos)).values[f])
  {
    var pairs := FileIndexPairs(infos);
    var m := ToMap(pairs);
    forall f | f in m.values
      ensures IsLastPosition(infos, f, m.values[f])
    {
      assert f in Firsts(pairs);
      var i := LastIndexOf(Firsts(pairs), f);
      ToMapLastWins(pairs, i);
    }
  }

  /** Every file of the input, and no other, has an id. */
  lemma {:induction false} FilesIndexDomain(infos: seq<FileRegionInfo>, f: IrFile)
    ensures f in FilesIndex(infos).values <==> f in Files(infos)
  {
    var index := FilesIndex(infos);
    assert f in index.values <==> f in index.keys;
  }

  /** When no file occurs twice, the ids are dense: the file at position `i`
      has id `i`, and the index lists the files in input order. */
  lemma FilesIndexDense(infos: seq<FileRegionInfo>)
    requires forall i, j :: 0 <= i < j < |infos| ==> infos[i].file != infos[j].file
    ensures FilesIndex(infos).keys == Files(infos)
    ensures forall i :: 0 <= i < |infos| ==>
      infos[i].file in FilesIndex(infos).values && FilesIndex(infos).values[infos[i].file] == i
  {
    var index := FilesIndex(infos);
    DistinctOfDistinct(Files(infos));
    forall i | 0 <= i < |infos|
      ensures infos[i].file in index.values && index.values[infos[i].file] == i
    {
      FilesIndexDomain(infos, infos[i].file);
    }
  }

  // ------------------------------------------------------------- functions

  /** `filesRegionsInfo.flatMap { it.functions }`. */
  function Functions(infos: seq<FileRegionInfo>): seq<FunctionRegions> {
    if infos == [] then []
    else Functions(infos[..|infos| - 1]) + infos[|infos| - 1].functions
  }

  /** Functions come file by file, and in declaration order within a file. */
  lemma {:induction false} FunctionsAt(infos: seq<FileRegionInfo>, i: nat, j: nat)
    requires i < |infos| && j < |infos[i].functions|
    ensures |Functions(infos[..i])| + j < |Functions(infos)|
    ensures Functions(infos)[|Functions(infos[..i])| + j] == infos[i].functions[j]
  {
    var n := |infos|;
    if i < n - 1 {
      assert infos[..n - 1][..i] == infos[..i];
      FunctionsAt(infos[..n - 1], i, j);
    } else {
      assert infos[..i] == infos[..n - 1];
    }
  }

  /** Flattening two lists of files one after the other is flattening each. */
  lemma {:induction false} FunctionsAppend(a: seq<FileRegionInfo>, b: seq<FileRegionInfo>)
    ensures Functions(a + b) == Functions(a) + Functions(b)
  {
    if b == [] {
      assert a + b == a;
    } else {
      var n := |b|;
      assert (a + b)[..|a + b| - 1] == a + b[..n - 1];
      FunctionsAppend(a, b[..n - 1]);
    }
  }

  /** A single file contributes exactly its own functions, in order. */
  lemma FunctionsOfOne(info: FileRegionInfo)
    ensures Functions([info]) == info.functions
  {
    assert [info][..0] == [];
  }

  /** One region of a function: its counter id is looked up, then the region is encoded. */
  function EncodeFunctionRegion(fr: FunctionRegions, region: Region, filesIndex: map<IrFile, int>): Result<EncodedRegion, Failure> {
    if region !in fr.regionEnumeration then Failure(MissingCounter(region))
    else EncodeRegion(region, fr.regionEnumeration[region], filesIndex)
  }

  /** Encoding region `i` is the first one to fail. */
  ghost predicate FirstRegionFailure(fr: FunctionRegions, regions: seq<Region>, filesIndex: map<IrFile, int>, i: int, e: Failure) {
    && 0 <= i < |regions|
    && EncodeFunctionRegion(fr, regions[i], filesIndex) == Failure(e)
    && forall j :: 0 <= j < i ==> EncodeFunctionRegion(fr, regions[j], filesIndex).Success?
  }

  /** `regions.values.map { ... populateFrom(...) }`: every region encoded, in
      order; the first region that cannot be encoded stops the whole. */
  function EncodeRegions(fr: FunctionRegions, regions: seq<Region>, filesIndex: map<IrFile, int>): (r: Result<seq<EncodedRegion>, Failure>)
    ensures r.Success? <==>
      forall i :: 0 <= i < |regions| ==> EncodeFunctionRegion(fr, regions[i], filesIndex).Success?
    ensures r.Success? ==> |r.value| == |regions|
    ensures r.Success? ==>
      forall i :: 0 <= i < |regions| ==> r.value[i] == EncodeFunctionRegion(fr, regions[i], filesIndex).value
    ensures r.Failure? ==> exists i :: FirstRegionFailure(fr, regions, filesIndex, i, r.error)
  {
    if regions == [] then Success([])
    else
      var n := |regions|;
      var init := regions[..n - 1];
      assert forall i :: 0 <= i < n - 1 ==> regions[i] == init[i];
      match EncodeRegions(fr, init, filesIndex)
      case Failure(e) =>
        ghost var i :| FirstRegionFailure(fr, init, filesIndex, i, e);
        assert FirstRegionFailure(fr, regions, filesIndex, i, e);
        Failure(e)
      case Success(done) =>
        match EncodeFunctionRegion(fr, regions[n - 1], filesIndex)
        case Failure(e) =>
          assert FirstRegionFailure(fr, regions, filesIndex, n - 1, e);
          Failure(e)
        case Success(one) => Success(done + [one])
  }

  /** `regions.map { filesIndex.getValue(it.value.file) }`: the owning file of each region. */
  function OwningFileIds(regions: seq<Region>, filesIndex: map<IrFile, int>): (ids: seq<int>)
    requires forall i :: 0 <= i < |regions| ==> regions[i].file in filesIndex
    ensures |ids| == |regions| && forall i :: 0 <= i < |regions| ==> ids[i] == filesIndex[regions[i].file]
  {
    seq(|regions|, i requires 0 <= i < |regions| => filesIndex[regions[i].file])
  }

  /** `... .toSet().toIntArray()`: each owning file id once, in order of first use. */
  function FunctionFileIds(regions: seq<Region>, filesIndex: map<IrFile, int>): (ids: seq<int>)
    requires forall i :: 0 <= i < |regions| ==> regions[i].file in filesIndex
    ensures NoDuplicates(ids)
    ensures forall id :: id in ids ==> exists i :: 0 <= i < |regions| && filesIndex[regions[i].file] == id
    ensures forall i :: 0 <= i < |regions| ==> filesIndex[regions[i].file] in ids
  {
    var owners := OwningFileIds(regions, filesIndex);
    assert forall i :: 0 <= i < |regions| ==> owners[i] in owners;
    Distinct(owners)
  }

  /** The file ids of a function are listed in the order their first region appears. */
  lemma FunctionFileIdsInOrderOfFirstUse(regions: seq<Region>, filesIndex: map<IrFile, int>, a: nat, b: nat)
    requires forall i :: 0 <= i < |regions| ==> regions[i].file in filesIndex
    requires a < b < |FunctionFileIds(regions, filesIndex)|
    ensures
      var ids := FunctionFileIds(regions, filesIndex);
      var owners := OwningFileIds(regions, filesIndex);
      IndexOf(owners, ids[a]) < IndexOf(owners, ids[b])
  {
    DistinctKeepsFirstOccurrenceOrder(OwningFileIds(regions, filesIndex), a, b);
  }

  /** One function's mapping record and coverage. */
  function EncodeFunction(fr: FunctionRegions, filesIndex: map<IrFile, int>): Result<(MappingRecord, FunctionCoverage), Failure> {
    match EncodeRegions(fr, fr.regions, filesIndex)
    case Failure(e) => Failure(e)
    case Success(encoded) =>
      assert forall i :: 0 <= i < |fr.regions| ==> EncodeFunctionRegion(fr, fr.regions[i], filesIndex).Success?;
      var coverage := FunctionCoverage(FunctionFileIds(fr.regions, filesIndex), encoded);
      Success((MappingRecord(fr.irFunction.symbolName, fr.structuralHash, coverage), coverage))
  }

  /** Encoding function `k` is the first one to fail. */
  ghost predicate FirstFunctionFailure(fs: seq<FunctionRegions>, filesIndex: map<IrFile, int>, k: int, e: Failure) {
    && 0 <= k < |fs|
    && EncodeFunction(fs[k], filesIndex) == Failure(e)
    && forall j :: 0 <= j < k ==> EncodeFunction(fs[j], filesIndex).Success?
  }

  /** `flatMap { it.functions }.map { ... }`: every function encoded, in order;
      the first function that fails stops the whole. */
  function EncodeFunctions(fs: seq<FunctionRegions>, filesIndex: map<IrFile, int>): (r: Result<seq<(MappingRecord, FunctionCoverage)>, Failure>)
    ensures r.Success? <==> forall k :: 0 <= k < |fs| ==> EncodeFunction(fs[k], filesIndex).Success?
    ensures r.Success? ==> |r.value| == |fs|
    ensures r.Success? ==> forall k :: 0 <= k < |fs| ==> r.value[k] == EncodeFunction(fs[k], filesIndex).value
    ensures r.Failure? ==> exists k :: FirstFunctionFailure(fs, filesIndex, k, r.error)
  {
    if fs == [] then Success([])
    else
      var n := |fs|;
      var init := fs[..n - 1];
      match EncodeFunctions(init, filesIndex)
      case Failure(e) =>
        ghost var k :| FirstFunctionFailure(init, filesIndex, k, e);
        FirstFunctionFailureExtends(fs, filesIndex, k, e);
        Failure(e)
      case Success(done) =>
        FunctionsBeforeLast(fs, init, filesIndex, done);
        match EncodeFunction(fs[n - 1], filesIndex)
        case Failure(e) =>
          assert FirstFunctionFailure(fs, filesIndex, n - 1, e);
          Failure(e)
        case Success(one) => Success(done + [one])
  }

  lemma FirstFunctionFailureExtends(fs: seq<FunctionRegions>, filesIndex: map<IrFile, int>, k: int, e: Failure)
    requires |fs| > 0 && FirstFunctionFailure(fs[..|fs| - 1], filesIndex, k, e)
    ensures FirstFunctionFailure(fs, filesIndex, k, e)
  {
    assert forall j :: 0 <= j <= k ==> fs[..|fs| - 1][j] == fs[j];
  }

  lemma FunctionsBeforeLast(fs: seq<FunctionRegions>, init: seq<FunctionRegions>, filesIndex: map<IrFile, int>,
                            done: seq<(MappingRecord, FunctionCoverage)>)
    requires |fs| > 0 && init == fs[..|fs| - 1] && |done| == |init|
    requires forall k :: 0 <= k < |init| ==> EncodeFunction(init[k], filesIndex).Success?
    requires forall k :: 0 <= k < |init| ==> done[k] == EncodeFunction(init[k], filesIndex).value
    ensures forall k :: 0 <= k < |fs| - 1 ==> EncodeFunction(fs[k], filesIndex).Success?
    ensures forall k :: 0 <= k < |fs| - 1 ==> done[k] == EncodeFunction(fs[k], filesIndex).value
  {
    assert forall k :: 0 <= k < |init| ==> init[k] == fs[k];
  }

  // ----------------------------------------------------------------- module

  /** `filesIndex.entries.toList().map { it.key.name to it.value }`. */
  function FilenameTable(index: LinkedMap<IrFile, int>): (table: seq<(string, int)>)
    requires index.Valid()
    ensures |table| == |index.keys|
    ensures forall i :: 0 <= i < |table| ==> table[i] == (index.keys[i].name, index.values[index.keys[i]])
  {
    var entries := index.Entries();
    seq(|entries|, i requires 0 <= i < |entries| => (entries[i].0.name, entries[i].1))
  }

  /** What a non-empty `write` emits into `module`, or why it stops. */
  function CoverageGlobalOf(infos: seq<FileRegionInfo>, llvmModule: LLVMModule): Result<CoverageGlobal, Failure> {
    var index := FilesIndex(infos);
    match EncodeFunctions(Functions(infos), index.values)
    case Failure(e) => Failure(e)
    case Success(encoded) =>
      var table := FilenameTable(index);
      Success(CoverageGlobal(llvmModule, Firsts(encoded), Firsts(table), Seconds(table), Seconds(encoded)))
  }

  // ------------------------------------------------------------- properties

  /** A region whose files are known and which has a counter. */
  ghost predicate Resolvable(fr: FunctionRegions, region: Region, files: seq<IrFile>) {
    && region in fr.regionEnumeration
    && region.file in files
    && (region.kind.Expansion? ==> region.kind.expandedFile in files)
  }

  /** Decoding an encoded region with the input's file list gives the region back. */
  lemma EncodeRegionRoundTrip(infos: seq<FileRegionInfo>, region: Region, regionId: int)
    requires EncodeRegion(region, regionId, FilesIndex(infos).values).Success?
    ensures DecodeRegion(EncodeRegion(region, regionId, FilesIndex(infos).values).value, Files(infos)) == Some(region)
  {
  }

  /** A region of a function can be encoded exactly when it is resolvable. */
  lemma EncodeFunctionRegionSucceedsIff(infos: seq<FileRegionInfo>, fr: FunctionRegions, region: Region)
    ensures EncodeFunctionRegion(fr, region, FilesIndex(infos).values).Success? <==>
      Resolvable(fr, region, Files(infos))
  {
    FilesIndexDomain(infos, region.file);
    if region.kind.Expansion? {
      FilesIndexDomain(infos, region.kind.expandedFile);
    }
  }

  lemma CoverageGlobalOfUnfold(infos: seq<FileRegionInfo>, llvmModule: LLVMModule)
    ensures CoverageGlobalOf(infos, llvmModule).Success? == EncodeFunctions(Functions(infos), FilesIndex(infos).values).Success?
  {
  }

  /** Every region of the function is resolvable. */
  ghost predicate FunctionResolvable(fr: FunctionRegions, files: seq<IrFile>) {
    forall j :: 0 <= j < |fr.regions| ==> Resolvable(fr, fr.regions[j], files)
  }

  /** A function can be encoded exactly when all its regions are resolvable. */
  lemma EncodeFunctionSucceedsIff(infos: seq<FileRegionInfo>, fr: FunctionRegions)
    ensures EncodeFunction(fr, FilesIndex(infos).values).Success? <==> FunctionResolvable(fr, Files(infos))
  {
    var index := FilesIndex(infos).values;
    forall j | 0 <= j < |fr.regions|
      ensures EncodeFunctionRegion(fr, fr.regions[j], index).Success? <==> Resolvable(fr, fr.regions[j], Files(infos))
    {
      EncodeFunctionRegionSucceedsIff(infos, fr, fr.regions[j]);
    }
    assert EncodeFunction(fr, index).Success? <==> EncodeRegions(fr, fr.regions, index).Success?;
  }

  /** A non-empty `write` emits its global exactly when every region of every
      function has a counter and only names files of the input, as its own
      file or as the file it expands. */
  lemma CoverageGlobalSucceedsIff(infos: seq<FileRegionInfo>, llvmModule: LLVMModule)
    ensures CoverageGlobalOf(infos, llvmModule).Success? <==>
      forall k :: 0 <= k < |Functions(infos)| ==> FunctionResolvable(Functions(infos)[k], Files(infos))
  {
    var fs := Functions(infos);
    var index := FilesIndex(infos).values;
    forall k | 0 <= k < |fs|
      ensures EncodeFunction(fs[k], index).Success? <==> FunctionResolvable(fs[k], Files(infos))
    {
      EncodeFunctionSucceedsIff(infos, fs[k]);
    }
    var r := EncodeFunctions(fs, index);
    assert r.Success? <==> forall k :: 0 <= k < |fs| ==> EncodeFunction(fs[k], index).Success?;
    CoverageGlobalOfUnfold(infos, llvmModule);
  }

  /** The global holds one mapping record and one coverage per function, in
      flattened file-then-function order: the record carries the function's
      symbol name, its structural hash unchanged, and its coverage; the
      coverage lists the function's distinct owning-file ids and one encoded
      region per region. */
  lemma CoverageGlobalRecords(infos: seq<FileRegionInfo>, llvmModule: LLVMModule)
    requires CoverageGlobalOf(infos, llvmModule).Success?
    ensures
      var g := CoverageGlobalOf(infos, llvmModule).value;
      var fs := Functions(infos);
      && g.llvmModule == llvmModule
      && |g.records| == |fs| && |g.coverages| == |fs|
      && forall k :: 0 <= k < |fs| ==>
        && g.records[k] == MappingRecord(fs[k].irFunction.symbolName, fs[k].structuralHash, g.coverages[k])
        && |g.coverages[k].regions| == |fs[k].regions|
        && (forall i :: 0 <= i < |fs[k].regions| ==> fs[k].regions[i].file in FilesIndex(infos).values)
        && g.coverages[k].fileIds == FunctionFileIds(fs[k].regions, FilesIndex(infos).values)
  {
    var fs := Functions(infos);
    var index := FilesIndex(infos).values;
    var encoded := EncodeFunctions(fs, index).value;
    forall k | 0 <= k < |fs|
      ensures EncodeFunction(fs[k], index).Success?
      ensures EncodeRegions(fs[k], fs[k].regions, index).Success?
    {
    }
  }

  /** Region `j` of function `k` reads back as that region, and its counter id
      is the one `regionEnumeration` gives it. */
  lemma CoverageGlobalRegionAt(infos: seq<FileRegionInfo>, llvmModule: LLVMModule, k: nat, j: nat)
    requires CoverageGlobalOf(infos, llvmModule).Success?
    requires k < |Functions(infos)| && j < |Functions(infos)[k].regions|
    ensures
      var g := CoverageGlobalOf(infos, llvmModule).value;
      var fr := Functions(infos)[k];
      && k < |g.coverages| && j < |g.coverages[k].regions|
      && fr.regions[j] in fr.regionEnumeration
      && g.coverages[k].regions[j].counterId == fr.regionEnumeration[fr.regions[j]]
      && DecodeRegion(g.coverages[k].regions[j], Files(infos)) == Some(fr.regions[j])
  {
    var fs := Functions(infos);
    var index := FilesIndex(infos).values;
    assert EncodeFunction(fs[k], index).Success?;
    var fr := fs[k];
    assert EncodeFunctionRegion(fr, fr.regions[j], index).Success?;
    EncodeRegionRoundTrip(infos, fr.regions[j], fr.regionEnumeration[fr.regions[j]]);
  }

  /** The filename table lists every file of the input once, in order of first
      appearance, each beside its id, which is its last position in the input. */
  lemma CoverageGlobalFilenameTable(infos: seq<FileRegionInfo>, llvmModule: LLVMModule)
    requires CoverageGlobalOf(infos, llvmModule).Success?
    ensures
      var g := CoverageGlobalOf(infos, llvmModule).value;
      var files := Distinct(Files(infos));
      && |g.filenames| == |files| && |g.fileIds| == |files|
      && forall i :: 0 <= i < |files| ==>
        g.filenames[i] == files[i].name && IsLastPosition(infos, files[i], g.fileIds[i])
  {
    var index := FilesIndex(infos);
    CoverageGlobalOfUnfold(infos, llvmModule);
    CoverageGlobalOfSuccess(infos, llvmModule, EncodeFunctions(Functions(infos), index.values).value);
    var g := CoverageGlobalOf(infos, llvmModule).value;
    var table := FilenameTable(index);
    assert g.filenames == Firsts(table) && g.fileIds == Seconds(table);
    forall i | 0 <= i < |index.keys|
      ensures g.filenames[i] == index.keys[i].name && IsLastPosition(infos, index.keys[i], g.fileIds[i])
    {
      assert index.keys[i] in index.values;
      assert g.fileIds[i] == index.values[index.keys[i]];
    }
  }

  /** With no file repeated, the filename table is the input's files by
      position, with ids 0 to n - 1. */
  lemma CoverageGlobalDenseFilenameTable(infos: seq<FileRegionInfo>, llvmModule: LLVMModule)
    requires forall i, j :: 0 <= i < j < |infos| ==> infos[i].file != infos[j].file
    requires CoverageGlobalOf(infos, llvmModule).Success?
    ensures
      var g := CoverageGlobalOf(infos, llvmModule).value;
      && |g.filenames| == |infos| && |g.fileIds| == |infos|
      && forall i :: 0 <= i < |infos| ==> g.filenames[i] == infos[i].file.name && g.fileIds[i] == i
  {
    FilesIndexDense(infos);
    CoverageGlobalFilenameTable(infos, llvmModule);
  }

  /** The expanded-file id of a code or gap region is 0, the same as that of
      an expansion of the file whose id is 0: only the kind tells them apart. */
  lemma ExpandedFileIdZeroIsShared(filesIndex: map<IrFile, int>, region: Region, target: IrFile)
    requires region.kind.Code? || region.kind.Gap?
    requires region.file in filesIndex && target in filesIndex && filesIndex[target] == 0
    ensures
      var plain := EncodeRegion(region, 0, filesIndex);
      var expansion := EncodeRegion(region.(kind := Expansion(target)), 0, filesIndex);
      && plain.Success? && expansion.Success?
      && plain.value.expandedFileId == expansion.value.expandedFileId == 0
      && plain.value.(kind := EXPANSION) == expansion.value
  {
  }

  lemma FunctionsOfTwoFiles(first: FileRegionInfo, second: FileRegionInfo)
    ensures Functions([first, second]) == first.functions + second.functions
  {
    assert [first][..0] == [];
    assert Functions([first]) == first.functions;
    assert [first, second][..1] == [first];
  }

  /** A worked example: file A holds function f with a code region on lines
      1-5 (counter 0) and an expansion of file B on line 3 (counter 1); B is
      listed after A and has no functions. A gets id 0 and B id 1; f's file
      ids are only [0], because B is an expansion target and not the file of
      any region. */
  lemma WorkedExample()
    ensures
      var a, b := IrFile(0, "A"), IrFile(1, "B");
      var code := Region(a, 1, 1, 5, 1, Code);
      var expansion := Region(a, 3, 1, 3, 10, Expansion(b));
      var f := FunctionRegions(IrFunction(0, "f"), 42, [code, expansion], map[code := 0, expansion := 1]);
      var infos := [FileRegionInfo(a, [f]), FileRegionInfo(b, [])];
      var coverage := FunctionCoverage([0], [EncodedRegion(0, 1, 1, 5, 1, 0, CODE, 0), EncodedRegion(0, 3, 1, 3, 10, 1, EXPANSION, 1)]);
      CoverageGlobalOf(infos, LLVMModule(7)) ==
        Success(CoverageGlobal(LLVMModule(7), [MappingRecord("f", 42, coverage)], ["A", "B"], [0, 1], [coverage]))
  {
    var a, b := IrFile(0, "A"), IrFile(1, "B");
    var code := Region(a, 1, 1, 5, 1, Code);
    var expansion := Region(a, 3, 1, 3, 10, Expansion(b));
    var f := FunctionRegions(IrFunction(0, "f"), 42, [code, expansion], map[code := 0, expansion := 1]);
    var infos := [FileRegionInfo(a, [f]), FileRegionInfo(b, [])];
    var index := ExampleIndex(a, b, [f]);
    FunctionsOfTwoFiles(infos[0], infos[1]);
    assert Functions(infos) == [f];
    var e1 := EncodedRegion(0, 1, 1, 5, 1, 0, CODE, 0);
    var e2 := EncodedRegion(0, 3, 1, 3, 10, 1, EXPANSION, 1);
    var coverage := FunctionCoverage([0], [e1, e2]);
    ExampleFunction(f, code, expansion, index.values, e1, e2);
    ExampleFilenameTable(a, b, index);
    SingleFunctionGlobal(infos, LLVMModule(7), f, MappingRecord("f", 42, coverage), coverage);
  }

  /** The global emitted for inputs whose only function is `f`. */
  lemma SingleFunctionGlobal(infos: seq<FileRegionInfo>, llvmModule: LLVMModule, f: FunctionRegions,
                             record: MappingRecord, coverage: FunctionCoverage)
    requires Functions(infos) == [f]
    requires EncodeFunction(f, FilesIndex(infos).values) == Success((record, coverage))
    ensures var table := FilenameTable(FilesIndex(infos));
      CoverageGlobalOf(infos, llvmModule) ==
        Success(CoverageGlobal(llvmModule, [record], Firsts(table), Seconds(table), [coverage]))
  {
    EncodeOneFunction(f, FilesIndex(infos).values, (record, coverage));
    FirstsSecondsOfOne(record, coverage);
    CoverageGlobalOfSuccess(infos, llvmModule, [(record, coverage)]);
  }

  lemma EncodeOneFunction(f: FunctionRegions, filesIndex: map<IrFile, int>, p: (MappingRecord, FunctionCoverage))
    requires EncodeFunction(f, filesIndex) == Success(p)
    ensures EncodeFunctions([f], filesIndex) == Success([p])
  {
    var r := EncodeFunctions([f], filesIndex);
    assert r.Success?;
    assert |r.value| == 1 && r.value[0] == p;
    assert r.value == [p];
  }

  lemma CoverageGlobalOfSuccess(infos: seq<FileRegionInfo>, llvmModule: LLVMModule, encoded: seq<(MappingRecord, FunctionCoverage)>)
    requires EncodeFunctions(Functions(infos), FilesIndex(infos).values) == Success(encoded)
    ensures var table := FilenameTable(FilesIndex(infos));
      CoverageGlobalOf(infos, llvmModule) ==
        Success(CoverageGlobal(llvmModule, Firsts(encoded), Firsts(table), Seconds(table), Seconds(encoded)))
  {
  }

  lemma ExampleFilenameTable(a: IrFile, b: IrFile, index: LinkedMap<IrFile, int>)
    requires a.name == "A" && b.name == "B" && a != b
    requires index == LinkedMap([a, b], map[a := 0, b := 1])
    ensures index.Valid()
    ensures Firsts(FilenameTable(index)) == ["A", "B"] && Seconds(FilenameTable(index)) == [0, 1]
  {
    var table := FilenameTable(index);
    assert table == [("A", 0), ("B", 1)];
  }

  lemma ExampleFunction(f: FunctionRegions, code: Region, expansion: Region, idx: map<IrFile, int>, e1: EncodedRegion, e2: EncodedRegion)
    requires f.regions == [code, expansion]
    requires EncodeFunctionRegion(f, code, idx) == Success(e1)
    requires EncodeFunctionRegion(f, expansion, idx) == Success(e2)
    requires code.file == expansion.file && idx[code.file] == 0
    ensures var coverage := FunctionCoverage([0], [e1, e2]);
      EncodeFunction(f, idx) == Success((MappingRecord(f.irFunction.symbolName, f.structuralHash, coverage), coverage))
  {
    ExampleRegions(f, code, expansion, idx, e1, e2);
  }

  lemma ExampleIndex(a: IrFile, b: IrFile, fs: seq<FunctionRegions>) returns (index: LinkedMap<IrFile, int>)
    requires a != b
    ensures index == FilesIndex([FileRegionInfo(a, fs), FileRegionInfo(b, [])])
    ensures index == LinkedMap([a, b], map[a := 0, b := 1])
  {
    var infos := [FileRegionInfo(a, fs), FileRegionInfo(b, [])];
    assert FileIndexPairs(infos) == [(a, 0), (b, 1)];
    ToMapOfTwo(a, b, 0, 1);
    index := FilesIndex(infos);
  }

  lemma ToMapOfTwo<K, V>(a: K, b: K, va: V, vb: V)
    requires a != b
    ensures ToMap([(a, va), (b, vb)]) == LinkedMap([a, b], map[a := va, b := vb])
  {
    var one := [(a, va)];
    assert one[..0] == [];
    assert ToMap(one) == LinkedMap([], map[]).Put(a, va);
    assert [(a, va), (b, vb)][..1] == one;
    assert ToMap([(a, va), (b, vb)]) == ToMap(one).Put(b, vb);
  }

  lemma ExampleRegions(f: FunctionRegions, code: Region, expansion: Region, idx: map<IrFile, int>, e1: EncodedRegion, e2: EncodedRegion)
    requires f.regions == [code, expansion]
    requires EncodeFunctionRegion(f, code, idx) == Success(e1)
    requires EncodeFunctionRegion(f, expansion, idx) == Success(e2)
    requires code.file == expansion.file && idx[code.file] == 0
    ensures EncodeRegions(f, f.regions, idx) == Success([e1, e2])
    ensures FunctionFileIds(f.regions, idx) == [0]
  {
    var r := EncodeRegions(f, f.regions, idx);
    assert f.regions[0] == code && f.regions[1] == expansion;
    assert r.Success?;
    assert r.value[0] == e1 && r.value[1] == e2;
    assert r.value == [e1, e2];
    var owners := OwningFileIds(f.regions, idx);
    assert owners == [0, 0];
    assert [0][..0] == [];
    assert Distinct([0]) == [0];
    assert owners[..1] == [0];
    assert Distinct(owners) == [0];
  }

  // ------------------------------------------------------------ the writer

  /** An allocated LLVMCoverageRegion struct, filled in place by `PopulateFrom`. */
  class LLVMCoverageRegion {
    var fileId: int
    var lineStart: int
    var columnStart: int
    var lineEnd: int
    var columnEnd: int
    var counterId: int
    var kind: LLVMCoverageRegionKind
    var expandedFileId: int

    /** The struct's current fields. */
    function Fields(): EncodedRegion
      reads this
    {
      EncodedRegion(fileId, lineStart, columnStart, lineEnd, columnEnd, counterId, kind, expandedFileId)
    }

    constructor ()
      ensures Fields() == EncodedRegion(0, 0, 0, 0, 0, 0, CODE, 0)
    {
      fileId, lineStart, columnStart, lineEnd, columnEnd := 0, 0, 0, 0, 0;
      counterId, kind, expandedFileId := 0, CODE, 0;
    }

    /** `populateFrom`: the eight fields are assigned in order. A file missing
        from the index stops it where its lookup stands, leaving the fields
        assigned so far in place. */
    method PopulateFrom(region: Region, regionId: int, filesIndex: map<IrFile, int>) returns (outcome: Outcome<Failure>)
      modifies this
      ensures outcome.Pass? <==> EncodeRegion(region, regionId, filesIndex).Success?
      ensures outcome.Pass? ==> Fields() == EncodeRegion(region, regionId, filesIndex).value
      ensures outcome.Fail? ==> outcome.error == EncodeRegion(region, regionId, filesIndex).error
      ensures region.file !in filesIndex ==> unchanged(this)
      ensures region.file in filesIndex && outcome.Fail? ==>
        Fields() == EncodedRegion(filesIndex[region.file], region.startLine, region.startColumn,
          region.endLine, region.endColumn, regionId, EXPANSION, old(expandedFileId))
    {
      if region.file !in filesIndex {
        return Fail(MissingFile(region.file));
      }
      fileId := filesIndex[region.file];
      lineStart := region.startLine;
      columnStart := region.startColumn;
      lineEnd := region.endLine;
      columnEnd := region.endColumn;
      counterId := regionId;
      kind := ToLLVMCoverageRegionKind(region.kind);
      if region.kind.Expansion? {
        if region.kind.expandedFile !in filesIndex {
          return Fail(MissingFile(region.kind.expandedFile));
        }
        expandedFileId := filesIndex[region.kind.expandedFile];
      } else {
        expandedFileId := 0;
      }
      return Pass;
    }
  }

  /** When regions before `i` encode and region `i` does not, encoding the
      whole list fails with region `i`'s error. */
  lemma EncodeRegionsFailsAt(fr: FunctionRegions, regions: seq<Region>, filesIndex: map<IrFile, int>, i: nat)
    requires i < |regions|
    requires EncodeRegions(fr, regions[..i], filesIndex).Success?
    requires EncodeFunctionRegion(fr, regions[i], filesIndex).Failure?
    ensures EncodeRegions(fr, regions, filesIndex) == Failure(EncodeFunctionRegion(fr, regions[i], filesIndex).error)
  {
    assert forall j :: 0 <= j < i ==> regions[..i][j] == regions[j];
    var r := EncodeRegions(fr, regions, filesIndex);
    var k :| FirstRegionFailure(fr, regions, filesIndex, k, r.error);
    assert !(k < i);
    assert !(i < k);
  }

  /** The regions of a function, each allocated and filled by `PopulateFrom`. */
  method EncodeFunctionRegions(fr: FunctionRegions, filesIndex: map<IrFile, int>) returns (result: Result<seq<EncodedRegion>, Failure>)
    ensures result == EncodeRegions(fr, fr.regions, filesIndex)
  {
    var encoded: seq<EncodedRegion> := [];
    var i := 0;
    while i < |fr.regions|
      invariant 0 <= i <= |fr.regions|
      invariant EncodeRegions(fr, fr.regions[..i], filesIndex) == Success(encoded)
    {
      var region := fr.regions[i];
      if region !in fr.regionEnumeration {
        EncodeRegionsFailsAt(fr, fr.regions, filesIndex, i);
        return Failure(MissingCounter(region));
      }
      var record := new LLVMCoverageRegion();
      var outcome := record.PopulateFrom(region, fr.regionEnumeration[region], filesIndex);
      if outcome.Fail? {
        EncodeRegionsFailsAt(fr, fr.regions, filesIndex, i);
        return Failure(outcome.error);
      }
      assert fr.regions[..i + 1][..i] == fr.regions[..i];
      encoded := encoded + [record.Fields()];
      i := i + 1;
    }
    assert fr.regions[..i] == fr.regions;
    return Success(encoded);
  }

  /** A function's owning-file ids, each kept once on first sight. */
  method CollectFileIds(regions: seq<Region>, filesIndex: map<IrFile, int>) returns (ids: seq<int>)
    requires forall i :: 0 <= i < |regions| ==> regions[i].file in filesIndex
    ensures ids == FunctionFileIds(regions, filesIndex)
  {
    ghost var owners := OwningFileIds(regions, filesIndex);
    ids := [];
    var i := 0;
    while i < |regions|
      invariant 0 <= i <= |regions|
      invariant ids == Distinct(owners[..i])
    {
      var id := filesIndex[regions[i].file];
      assert owners[..i + 1][..i] == owners[..i];
      if id !in ids {
        ids := ids + [id];
      }
      i := i + 1;
    }
    assert owners[..i] == owners;
  }

  /** One function's coverage buffer and mapping record. */
  method WriteFunction(fr: FunctionRegions, filesIndex: map<IrFile, int>) returns (result: Result<(MappingRecord, FunctionCoverage), Failure>)
    ensures result == EncodeFunction(fr, filesIndex)
  {
    var regions := EncodeFunctionRegions(fr, filesIndex);
    if regions.Failure? {
      return Failure(regions.error);
    }
    assert forall i :: 0 <= i < |fr.regions| ==> EncodeFunctionRegion(fr, fr.regions[i], filesIndex).Success?;
    var fileIds := CollectFileIds(fr.regions, filesIndex);
    var coverage := FunctionCoverage(fileIds, regions.value);
    return Success((MappingRecord(fr.irFunction.symbolName, fr.structuralHash, coverage), coverage));
  }

  /** The file index, built by putting each file with its position. */
  method IndexFiles(infos: seq<FileRegionInfo>) returns (index: LinkedMap<IrFile, int>)
    ensures index == FilesIndex(infos)
  {
    ghost var pairs := FileIndexPairs(infos);
    index := LinkedMap([], map[]);
    var i := 0;
    while i < |infos|
      invariant 0 <= i <= |infos|
      invariant index == ToMap(pairs[..i])
    {
      assert pairs[..i + 1][..i] == pairs[..i];
      index := index.Put(infos[i].file, i);
      i := i + 1;
    }
    assert pairs[..i] == pairs;
  }

  /** All functions, file after file. */
  method FlattenFunctions(infos: seq<FileRegionInfo>) returns (fs: seq<FunctionRegions>)
    ensures fs == Functions(infos)
  {
    fs := [];
    var i := 0;
    while i < |infos|
      invariant 0 <= i <= |infos|
      invariant fs == Functions(infos[..i])
    {
      assert infos[..i + 1][..i] == infos[..i];
      fs := fs + infos[i].functions;
      i := i + 1;
    }
    assert infos[..i] == infos;
  }

  /** When functions before `k` encode and function `k` does not, encoding
      them all fails with function `k`'s error. */
  lemma EncodeFunctionsFailsAt(fs: seq<FunctionRegions>, filesIndex: map<IrFile, int>, k: nat)
    requires k < |fs|
    requires EncodeFunctions(fs[..k], filesIndex).Success?
    requires EncodeFunction(fs[k], filesIndex).Failure?
    ensures EncodeFunctions(fs, filesIndex) == Failure(EncodeFunction(fs[k], filesIndex).error)
  {
    assert forall j :: 0 <= j < k ==> fs[..k][j] == fs[j];
    var r := EncodeFunctions(fs, filesIndex);
    var m :| FirstFunctionFailure(fs, filesIndex, m, r.error);
    assert !(m < k);
    assert !(k < m);
  }

  lemma EncodeFunctionsStep(fs: seq<FunctionRegions>, filesIndex: map<IrFile, int>, k: nat)
    requires k < |fs|
    requires EncodeFunctions(fs[..k], filesIndex).Success?
    requires EncodeFunction(fs[k], filesIndex).Success?
    ensures EncodeFunctions(fs[..k + 1], filesIndex) ==
      Success(EncodeFunctions(fs[..k], filesIndex).value + [EncodeFunction(fs[k], filesIndex).value])
  {
    assert fs[..k + 1][..k] == fs[..k];
  }

  /** Every function's record and coverage, unzipped into two lists. */
  method WriteFunctions(fs: seq<FunctionRegions>, filesIndex: map<IrFile, int>)
    returns (result: Result<(seq<MappingRecord>, seq<FunctionCoverage>), Failure>)
    ensures EncodeFunctions(fs, filesIndex).Failure? ==> result == Failure(EncodeFunctions(fs, filesIndex).error)
    ensures EncodeFunctions(fs, filesIndex).Success? ==>
      result == Success((Firsts(EncodeFunctions(fs, filesIndex).value), Seconds(EncodeFunctions(fs, filesIndex).value)))
  {
    var records: seq<MappingRecord> := [];
    var coverages: seq<FunctionCoverage> := [];
    ghost var done: seq<(MappingRecord, FunctionCoverage)> := [];
    var k := 0;
    assert fs[..k] == [];
    while k < |fs|
      invariant 0 <= k <= |fs|
      invariant EncodeFunctions(fs[..k], filesIndex) == Success(done)
      invariant records == Firsts(done) && coverages == Seconds(done)
    {
      var one := WriteFunction(fs[k], filesIndex);
      if one.Failure? {
        EncodeFunctionsFailsAt(fs, filesIndex, k);
        return Failure(one.error);
      }
      EncodeFunctionsStep(fs, filesIndex, k);
      FirstsSecondsAppend(done, one.value);
      done := done + [one.value];
      records := records + [one.value.0];
      coverages := coverages + [one.value.1];
      k := k + 1;
    }
    assert fs[..k] == fs;
    return Success((records, coverages));
  }

  /** The filename table as the two lists LLVMCoverageEmit takes. */
  method WriteFilenameTable(index: LinkedMap<IrFile, int>) returns (filenames: seq<string>, fileIds: seq<int>)
    requires index.Valid()
    ensures filenames == Firsts(FilenameTable(index)) && fileIds == Seconds(FilenameTable(index))
  {
    filenames, fileIds := [], [];
    var i := 0;
    while i < |index.keys|
      invariant 0 <= i <= |index.keys|
      invariant |filenames| == i && |fileIds| == i
      invariant forall j :: 0 <= j < i ==>
        filenames[j] == index.keys[j].name && fileIds[j] == index.values[index.keys[j]]
    {
      var file := index.keys[i];
      filenames := filenames + [file.name];
      fileIds := fileIds + [index.values[file]];
      i := i + 1;
    }
  }

  /** The compilation context: the LLVM module, once there is one, and the
      globals kept alive by `llvm.used`. */
  class Context {
    var llvmModule: Option<LLVMModule>
    var usedGlobals: seq<CoverageGlobal>

    constructor (llvmModule: Option<LLVMModule>, usedGlobals: seq<CoverageGlobal>)
      ensures this.llvmModule == llvmModule && this.usedGlobals == usedGlobals
    {
      this.llvmModule := llvmModule;
      this.usedGlobals := usedGlobals;
    }
  }

  class LLVMCoverageWriter {
    const context: Context
    const filesRegionsInfo: seq<FileRegionInfo>

    constructor (context: Context, filesRegionsInfo: seq<FileRegionInfo>)
      ensures this.context == context && this.filesRegionsInfo == filesRegionsInfo
    {
      this.context := context;
      this.filesRegionsInfo := filesRegionsInfo;
    }

    /** `write`: nothing for an empty input; a failure without an LLVM module;
        otherwise the coverage global is emitted and appended to
        `usedGlobals`, or, when a lookup fails, nothing is appended. */
    method Write() returns (outcome: Outcome<Failure>)
      modifies context`usedGlobals
      ensures filesRegionsInfo == [] ==>
        outcome == Pass && context.usedGlobals == old(context.usedGlobals)
      ensures filesRegionsInfo != [] && context.llvmModule.None? ==>
        outcome == Fail(ModuleNotInitialized) && context.usedGlobals == old(context.usedGlobals)
      ensures filesRegionsInfo != [] && context.llvmModule.Some? ==>
        var expected := CoverageGlobalOf(filesRegionsInfo, context.llvmModule.value);
        && (expected.Success? ==> outcome == Pass && context.usedGlobals == old(context.usedGlobals) + [expected.value])
        && (expected.Failure? ==> outcome == Fail(expected.error) && context.usedGlobals == old(context.usedGlobals))
    {
      if filesRegionsInfo == [] {
        return Pass;
      }
      if context.llvmModule.None? {
        return Fail(ModuleNotInitialized);
      }
      var llvmModule := context.llvmModule.value;
      var filesIndex := IndexFiles(filesRegionsInfo);
      var functions := FlattenFunctions(filesRegionsInfo);
      var written := WriteFunctions(functions, filesIndex.values);
      if written.Failure? {
        return Fail(written.error);
      }
      var filenames, fileIds := WriteFilenameTable(filesIndex);
      var coverageGlobal := CoverageGlobal(llvmModule, written.value.0, filenames, fileIds, written.value.1);
      context.usedGlobals := context.usedGlobals + [coverageGlobal];
      return Pass;
    }
  }
}
