/** The coverage data the front end hands to the writer: for each source file
    its functions, for each function its regions and the counter id of each
    region. All of it is read-only input to the writer. */
module CoverageModel {

  /** A source file, by identity; `name` is what `IrFile.name` reports. */
  datatype IrFile = IrFile(id: nat, name: string)

  /** A function declaration, by identity; `symbolName` is its linkage name. */
  datatype IrFunction = IrFunction(id: nat, symbolName: string)

  /** What a region stands for: ordinary code, a gap, or code expanded from another file. */
  datatype RegionKind = Code | Gap | Expansion(expandedFile: IrFile)

  /** One instrumented source range. */
  datatype Region = Region(
    file: IrFile,
    startLine: int,
    startColumn: int,
    endLine: int,
    endColumn: int,
    kind: RegionKind)

  /** One function's coverage: `regions` holds the values of the source's
      region map in its iteration order; `regionEnumeration` gives each
      region its counter id. */
  datatype FunctionRegions = FunctionRegions(
    irFunction: IrFunction,
    structuralHash: int,
    regions: seq<Region>,
    regionEnumeration: map<Region, int>)

  /** One source file and the functions declared in it. */
  datatype FileRegionInfo = FileRegionInfo(file: IrFile, functions: seq<FunctionRegions>)
}
