/** The layouts of main object files and code object files, as the packer writes them and the reader reads them. */
module ObjectFormat {
  import opened Words
  import opened ByteCode
  import opened Buffers
  import opened ReadOnlyData

  const MO_HEADER_SIZE := 500
  const CO_HEADER_SIZE := 100
  const MAGIC_SIZE := 5
  const PREFIX_SIZE := 32
  const EXTENSION_SIZE := 10
  const SYMBOL_SIZE := 19
  const COMMAND_SIZE := 36
  const DEBUG_SIZE := 100

  // section types
  const LINKING_ORDER: Byte := 14
  const CONSTANTS: Byte := 15
  const SYMBOLS: Byte := 16
  const DEBUG: Byte := 17

  /** "MSLMO", "MSLCO", "mslmodule" and "mslco" as bytes. */
  function MoMagic(): (s: seq<Byte>) ensures |s| == MAGIC_SIZE { [77, 83, 76, 77, 79] }

  function CoMagic(): (s: seq<Byte>) ensures |s| == MAGIC_SIZE { [77, 83, 76, 67, 79] }

  function ModulePrefix(): seq<Byte> { [109, 115, 108, 109, 111, 100, 117, 108, 101] }

  function ModuleExtension(): seq<Byte> { [109, 115, 108, 99, 111] }

  /** The version number, a four-byte float that is only copied. */
  type Version = s: seq<Byte> | |s| == 4 witness [0, 0, 128, 63]

  /** What the compiler hands over: flags, modules in linking order, constants by id, symbols by id. */
  datatype MoState = MoState(
    version: Version,
    flags: nat,
    order: seq<ModuleId>,
    constants: seq<seq<Byte>>,
    symbols: seq<SymbolData>)

  function KindNumber(k: SymbolKind): Byte {
    match k
    case UndefinedSymbol => 0
    case VariableSymbol => 1
    case TypeSymbol => 2
    case FunctionSymbol => 3
    case NamespaceSymbol => 4
  }

  function KindOf(b: Byte): Option<SymbolKind> {
    if b == 0 then Some(UndefinedSymbol)
    else if b == 1 then Some(VariableSymbol)
    else if b == 2 then Some(TypeSymbol)
    else if b == 3 then Some(FunctionSymbol)
    else if b == 4 then Some(NamespaceSymbol)
    else None
  }

  // ----- what is written -----

  function OrderBytes(order: seq<ModuleId>): (s: seq<Byte>)
    ensures |s| == 2 * |order|
  {
    if order == [] then [] else LE(order[0], 2) + OrderBytes(order[1..])
  }

  function ConstantBytes(id: nat, data: seq<Byte>): seq<Byte> {
    LE(id, 8) + LE(|data|, 8) + data
  }

  function ConstantsBytes(constants: seq<seq<Byte>>, first: nat): (s: seq<Byte>)
    ensures |s| == ConstantsSize(constants)
  {
    if constants == [] then [] else ConstantBytes(first, constants[0]) + ConstantsBytes(constants[1..], first + 1)
  }

  function ConstantsSize(constants: seq<seq<Byte>>): nat {
    if constants == [] then 0 else 16 + |constants[0]| + ConstantsSize(constants[1..])
  }

  /** Only variables and functions have a place to write. */
  predicate HasPlace(k: SymbolKind) {
    k == VariableSymbol || k == FunctionSymbol
  }

  function SymbolBytes(id: nat, s: SymbolData): (r: seq<Byte>)
    ensures |r| <= SYMBOL_SIZE
  {
    LE(id, 8) + (if HasPlace(s.kind) then LE(s.offset, 8) + LE(s.moduleId, 2) else []) + [KindNumber(s.kind)]
  }

  function SymbolsBytes(symbols: seq<SymbolData>, first: nat): (s: seq<Byte>)
    ensures |s| <= SYMBOL_SIZE * |symbols|
  {
    if symbols == [] then [] else SymbolBytes(first, symbols[0]) + SymbolsBytes(symbols[1..], first + 1)
  }

  function SectionInfo(kind: Byte, offset: nat, size: nat): (s: seq<Byte>)
    ensures |s| == 17
  {
    [kind] + LE(offset, 8) + LE(size, 8)
  }

  function PadTo(s: seq<Byte>, n: nat): (r: seq<Byte>)
    ensures |r| == if |s| <= n then n else |s|
  {
    if |s| <= n then s + Zeros(n - |s|) else s
  }

  datatype Sections = Sections(order: nat, constants: nat, symbols: nat, debug: nat, end: nat)

  /** Where the sections begin. */
  function SectionsOf(m: MoState): Sections {
    var c := MO_HEADER_SIZE + 2 * |m.order|;
    var s := c + ConstantsSize(m.constants);
    var d := s + SYMBOL_SIZE * |m.symbols|;
    Sections(MO_HEADER_SIZE, c, s, d, d + DEBUG_SIZE)
  }

  function Names(): (s: seq<Byte>)
    ensures |s| == PREFIX_SIZE + EXTENSION_SIZE
  {
    PadTo(ModulePrefix(), PREFIX_SIZE) + PadTo(ModuleExtension(), EXTENSION_SIZE)
  }

  function MoPreamble(m: MoState): (s: seq<Byte>)
    ensures |s| == 53
  {
    MoMagic() + m.version + LE(m.flags, 2) + Names()
  }

  function SectionTable(m: MoState): (s: seq<Byte>)
    ensures |s| == 68
  {
    var x := SectionsOf(m);
    SectionInfo(LINKING_ORDER, x.order, x.constants - x.order)
    + SectionInfo(CONSTANTS, x.constants, x.symbols - x.constants)
    + SectionInfo(SYMBOLS, x.symbols, x.debug - x.symbols)
    + SectionInfo(DEBUG, x.debug, x.end - x.debug)
  }

  /** The sections' content. Symbols without a place leave the end of their section zero. */
  function MoContent(m: MoState): (s: seq<Byte>)
    ensures |s| == SectionsOf(m).end - MO_HEADER_SIZE
  {
    OrderBytes(m.order) + ConstantsBytes(m.constants, 0)
    + PadTo(SymbolsBytes(m.symbols, 0), SYMBOL_SIZE * |m.symbols|) + Zeros(DEBUG_SIZE)
  }

  function MoBytes(m: MoState): (s: seq<Byte>)
    ensures |s| == SectionsOf(m).end
  {
    PadTo(MoPreamble(m) + SectionTable(m), MO_HEADER_SIZE) + MoContent(m)
  }

  // ----- what is read -----

  /** Items read up to the end of a section, and where reading stopped. None: a field reaches past the buffer. */
  datatype Parsed<T> = Parsed(items: seq<T>, index: nat)

  function ReadNat(b: seq<Byte>, i: nat, n: nat): nat
    requires i + n <= |b|
  {
    FromLE(b[i..i + n])
  }

  function Cons<T>(x: T, p: Parsed<T>): Parsed<T> {
    p.(items := [x] + p.items)
  }

  function ReadOrder(b: seq<Byte>, i: nat, end: nat): Option<Parsed<ModuleId>>
    decreases end - i
  {
    if i >= end then Some(Parsed([], i))
    else if i + 2 > |b| then None
    else
      TwoBytes(b, i);
      var rest :- ReadOrder(b, i + 2, end);
      Some(Cons(ReadNat(b, i, 2), rest))
  }

  function ReadConstants(b: seq<Byte>, i: nat, end: nat, aligned: bool): Option<Parsed<ConstantData>>
    decreases end - i
  {
    if i >= end then Some(Parsed([], i))
    else if i + 16 > |b| then None
    else
      var id, size := ReadNat(b, i, 8), ReadNat(b, i + 8, 8);
      if i + 16 + size > |b| then None
      else
        EightBytes(b, i);
        var rest :- ReadConstants(b, i + 16 + size, end, aligned);
        Some(Cons(ConstantData(id, b[i + 16..i + 16 + size], UsingSize(aligned, size)), rest))
  }

  lemma EightBytes(b: seq<Byte>, i: nat)
    requires i + 8 <= |b|
    ensures ReadNat(b, i, 8) < TWO64
  {
    Pow256Of8();
  }

  lemma TwoBytes(b: seq<Byte>, i: nat)
    requires i + 2 <= |b|
    ensures ReadNat(b, i, 2) < 0x1_0000
  {
    Pow256Of8();
  }

  /** A symbol record: 19 bytes. A number that is no kind leaves the record undefined. */
  function ReadSymbol(b: seq<Byte>, i: nat): Option<SymbolData>
    requires i + SYMBOL_SIZE <= |b|
  {
    EightBytes(b, i);
    EightBytes(b, i + 8);
    TwoBytes(b, i + 16);
    var kind :- KindOf(b[i + 18]);
    Some(SymbolData(ReadNat(b, i, 8), ReadNat(b, i + 8, 8), ReadNat(b, i + 16, 2), kind))
  }

  function ReadSymbols(b: seq<Byte>, i: nat, end: nat): Option<Parsed<SymbolData>>
    decreases end - i
  {
    if i >= end then Some(Parsed([], i))
    else if i + SYMBOL_SIZE > |b| then None
    else
      var s :- ReadSymbol(b, i);
      var rest :- ReadSymbols(b, i + SYMBOL_SIZE, end);
      Some(Cons(s, rest))
  }

  datatype LinkingState = LinkingState(
    version: Version,
    flags: nat,
    prefix: seq<Byte>,
    extension: seq<Byte>,
    order: seq<ModuleId>,
    constants: seq<ConstantData>,
    constantsSize: nat,
    symbols: seq<SymbolData>)

  /** A name ends at its first zero byte. */
  function UntilZero(s: seq<Byte>): seq<Byte> {
    if s == [] || s[0] == 0 then [] else [s[0]] + UntilZero(s[1..])
  }

  function SumSizes(constants: seq<ConstantData>): nat {
    if constants == [] then 0 else constants[0].usingSize + SumSizes(constants[1..])
  }

  /** One entry of the section table: its section's items are added to the state. */
  function ReadSection(b: seq<Byte>, i: nat, aligned: bool, st: LinkingState): Option<LinkingState>
    requires i + 17 <= |b|
  {
    var kind, offset, size := b[i], ReadNat(b, i + 1, 8), ReadNat(b, i + 9, 8);
    if i + 17 + size > |b| then None
    else if kind == LINKING_ORDER then
      var p :- ReadOrder(b, offset, offset + size);
      Some(st.(order := st.order + p.items))
    else if kind == CONSTANTS then
      var p :- ReadConstants(b, offset, offset + size, aligned);
      Some(st.(constants := st.constants + p.items, constantsSize := st.constantsSize + SumSizes(p.items)))
    else if kind == SYMBOLS then
      var p :- ReadSymbols(b, offset, offset + size);
      Some(st.(symbols := st.symbols + p.items))
    else Some(st)
  }

  function ReadSections(b: seq<Byte>, i: nat, count: nat, aligned: bool, st: LinkingState): Option<LinkingState>
    requires i + 17 * count <= |b|
    decreases count
  {
    if count == 0 then Some(st)
    else
      var st' :- ReadSection(b, i, aligned, st);
      ReadSections(b, i + 17, count - 1, aligned, st')
  }

  function EmptyState(b: seq<Byte>): LinkingState
    requires |b| >= MO_HEADER_SIZE
  {
    LinkingState(b[5..9], ReadNat(b, 9, 2), UntilZero(b[11..43]), UntilZero(b[43..53]), [], [], 0, [])
  }

  /** Versions are compared for a warning only. */
  function ReadMo(b: seq<Byte>, aligned: bool): Option<LinkingState> {
    if |b| < MO_HEADER_SIZE || b[..MAGIC_SIZE] != MoMagic() then None
    else ReadSections(b, 53, 4, aligned, EmptyState(b))
  }
}
