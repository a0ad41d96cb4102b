/** ELF files: the header checks, the program-header walk, and the boot image they give. */
module Elf {
  import opened Common
  import opened Memory
  import opened Image

  /** A file in memory; no Rust slice is longer. */
  type File = bytes: seq<Byte> | |bytes| <= ISIZE_MAX witness []

  datatype Endian = Little | Big

  datatype Class = Class32 | Class64

  datatype ElfError =
    | TruncatedField
    | BadMagic
    | UnsupportedClass
    | UnsupportedEncoding
    | UnsupportedVersion
    | UnsupportedHeaderSize
    | UnsupportedProgramHeaderSize
    | UnsupportedSectionHeaderSize
    | SectionHeaderTableOutOfBounds
    | ProgramHeaderTableOutOfBounds
    | SegmentFileSizeExceedsMemorySize
    | SegmentFileRangeOutOfBounds
    | SegmentMemoryRangeOverflow
    | SegmentMemorySizeTooLarge
    | NoLoadableSegments
    | Rejected(reason: BootError)
    | MetadataFailure

  /** The verdicts of the metadata passes, which add no segment: the section summary, the load
  mappings, and each program header other than `PT_LOAD`. */
  datatype Metadata = Metadata(sectionsFail: bool, mappingsFail: bool, headerFails: nat -> bool)

  /** Field offsets of the file header and of a program header, by class; `word` is the size of an
  address. */
  datatype Layout = Layout(
    word: nat,
    headerSize: nat, headerSizeAt: nat,
    entryAt: nat,
    tableAt: nat, entrySize: nat, entrySizeAt: nat, countAt: nat,
    sectionsAt: nat, sectionSize: nat, sectionSizeAt: nat, infoAt: nat,
    fileOffsetAt: nat, physicalAt: nat, fileSizeAt: nat, memorySizeAt: nat,
    addressLimit: nat)

  function LayoutOf(class_: Class): (l: Layout) {
    match class_
    case Class64 => Layout(8, 64, 52, 24, 32, 56, 54, 56, 40, 64, 58, 44, 8, 24, 32, 40, U64_MAX)
    case Class32 => Layout(4, 52, 40, 24, 28, 32, 42, 44, 32, 40, 46, 28, 4, 12, 16, 20, 0x1_0000_0000)
  }

  const PT_LOAD: nat := 1
  const PN_XNUM: nat := 0xffff

  // ----- fields

  function FromBigEndian(bytes: seq<Byte>): (x: nat) {
    if bytes == [] then 0 else 256 * FromBigEndian(bytes[..|bytes| - 1]) + bytes[|bytes| - 1]
  }

  function Number(bytes: seq<Byte>, endian: Endian): (x: nat) {
    if endian.Little? then FromLittleEndian(bytes) else FromBigEndian(bytes)
  }

  function ReadExact(bytes: File, offset: nat, size: nat): (r: Result<seq<Byte>, ElfError>) {
    var end := Min(offset + size, USIZE_MAX);
    if offset <= end <= |bytes| then Ok(bytes[offset..end]) else Err(TruncatedField)
  }

  function ReadField(bytes: File, offset: nat, size: nat, endian: Endian): (r: Result<nat, ElfError>) {
    var data :- ReadExact(bytes, offset, size);
    Ok(Number(data, endian))
  }

  /** The unsigned number stored in `size` bytes at `offset`. */
  function Field(bytes: File, offset: nat, size: nat, endian: Endian): (x: nat)
    requires offset + size <= |bytes|
  {
    Number(bytes[offset..offset + size], endian)
  }

  /** A field reads exactly when it lies in the file. */
  lemma ReadFieldIff(bytes: File, offset: nat, size: nat, endian: Endian)
    ensures ReadField(bytes, offset, size, endian).Ok? <==> offset + size <= |bytes|
    ensures offset + size <= |bytes| ==>
      ReadField(bytes, offset, size, endian) == Ok(Field(bytes, offset, size, endian))
    ensures offset + size > |bytes| ==> ReadField(bytes, offset, size, endian) == Err(TruncatedField)
  {
  }

  /** 64-bit addition as the compiled code does it. */
  function WrappingAdd(x: nat, y: nat): (z: nat) {
    (x + y) % TWO64
  }

  function WrappingMul(x: nat, y: nat): (z: nat) {
    (x * y) % TWO64
  }

  lemma SmallMod(x: nat)
    requires x <= U64_MAX
    ensures x % TWO64 == x
  {
  }

  // ----- header

  datatype Ident = Ident(class_: Class, endian: Endian)

  function DetectIdent(bytes: File): (r: Result<Ident, ElfError>) {
    var ident :- ReadExact(bytes, 0, 16);
    if ident[..4] != [0x7f, 0x45, 0x4c, 0x46] then Err(BadMagic)
    else if ident[4] != 1 && ident[4] != 2 then Err(UnsupportedClass)
    else if ident[5] != 1 && ident[5] != 2 then Err(UnsupportedEncoding)
    else if ident[6] != 1 then Err(UnsupportedVersion)
    else Ok(Ident(if ident[4] == 1 then Class32 else Class64, if ident[5] == 1 then Little else Big))
  }

  /** The number of program headers, from section header zero when the field is escaped. */
  function HeaderCount(bytes: File, l: Layout, endian: Endian, raw: nat): (r: Result<nat, ElfError>) {
    if raw != PN_XNUM then Ok(raw)
    else
      var section :- ReadField(bytes, l.sectionsAt, l.word, endian);
      var size :- ReadField(bytes, l.sectionSizeAt, 2, endian);
      if size != l.sectionSize then Err(UnsupportedSectionHeaderSize)
      else if section == 0 || section + size > |bytes| then Err(SectionHeaderTableOutOfBounds)
      else ReadField(bytes, WrappingAdd(section, l.infoAt), 4, endian)
  }

  function CheckTable(bytes: File, offset: nat, entrySize: nat, count: nat): (r: Result<nat, ElfError>) {
    if entrySize * count > U64_MAX then Err(ProgramHeaderTableOutOfBounds)
    else if offset + entrySize * count > |bytes| then Err(ProgramHeaderTableOutOfBounds)
    else Ok(entrySize * count)
  }

  /** Where the program headers are. */
  datatype Table = Table(entry: nat, offset: nat, count: nat)

  function ReadTable(bytes: File, l: Layout, endian: Endian, meta: Metadata): (r: Result<Table, ElfError>) {
    var headerSize :- ReadField(bytes, l.headerSizeAt, 2, endian);
    if headerSize != l.headerSize then Err(UnsupportedHeaderSize)
    else
      var entrySize :- ReadField(bytes, l.entrySizeAt, 2, endian);
      if entrySize != l.entrySize then Err(UnsupportedProgramHeaderSize)
      else if meta.sectionsFail then Err(MetadataFailure)
      else
        var entry :- ReadField(bytes, l.entryAt, l.word, endian);
        var offset :- ReadField(bytes, l.tableAt, l.word, endian);
        var raw :- ReadField(bytes, l.countAt, 2, endian);
        var count :- HeaderCount(bytes, l, endian, raw);
        var _ :- CheckTable(bytes, offset, entrySize, count);
        if meta.mappingsFail then Err(MetadataFailure) else Ok(Table(entry, offset, count))
  }

  // ----- program headers

  datatype Header = Header(fileOffset: nat, physical: nat, fileSize: nat, memorySize: nat)

  function HeaderAt(t: Table, l: Layout, index: nat): (offset: nat) {
    WrappingAdd(t.offset, WrappingMul(index, l.entrySize))
  }

  function ReadHeader(bytes: File, l: Layout, endian: Endian, at: nat): (r: Result<Header, ElfError>) {
    var fileOffset :- ReadField(bytes, WrappingAdd(at, l.fileOffsetAt), l.word, endian);
    var physical :- ReadField(bytes, WrappingAdd(at, l.physicalAt), l.word, endian);
    var fileSize :- ReadField(bytes, WrappingAdd(at, l.fileSizeAt), l.word, endian);
    var memorySize :- ReadField(bytes, WrappingAdd(at, l.memorySizeAt), l.word, endian);
    Ok(Header(fileOffset, physical, fileSize, memorySize))
  }

  function CheckedFileRange(bytes: File, offset: nat, size: nat): (r: Option<seq<Byte>>) {
    if offset + size <= U64_MAX && offset + size <= |bytes| then Some(bytes[offset..offset + size]) else None
  }

  /** The segment's memory: the file bytes, then zeros. */
  function SegmentData(file: seq<Byte>, memorySize: nat): (data: seq<Byte>)
    requires |file| <= memorySize
    ensures |data| == memorySize
  {
    file + seq(memorySize - |file|, _ => 0)
  }

  function LoadHeader(bytes: File, l: Layout, segments: seq<Segment>, h: Header): (r: Result<seq<Segment>, ElfError>)
  {
    if h.fileSize > h.memorySize then Err(SegmentFileSizeExceedsMemorySize)
    else
      var file := CheckedFileRange(bytes, h.fileOffset, h.fileSize);
      if file.None? then Err(SegmentFileRangeOutOfBounds)
      else if h.physical + h.memorySize > l.addressLimit then Err(SegmentMemoryRangeOverflow)
      else if h.memorySize > ISIZE_MAX then Err(SegmentMemorySizeTooLarge)
      else
        match AddSegment(segments, h.physical, SegmentData(file.value, h.memorySize))
        case Err(e) => Err(Rejected(e))
        case Ok(added) => Ok(added)
  }

  datatype Walked = Walked(segments: seq<Segment>, loaded: nat)

  /** The walk's work on one header. */
  function WalkOne(bytes: File, l: Layout, endian: Endian, t: Table, meta: Metadata, w: Walked, index: nat)
    : (r: Result<Walked, ElfError>)
  {
    var at := HeaderAt(t, l, index);
    var kind :- ReadField(bytes, at, 4, endian);
    if kind != PT_LOAD then
      if meta.headerFails(index) then Err(MetadataFailure) else Ok(w)
    else
      var h :- ReadHeader(bytes, l, endian, at);
      if h.memorySize == 0 then Ok(w)
      else
        var segments :- LoadHeader(bytes, l, w.segments, h);
        Ok(Walked(segments, w.loaded + 1))
  }

  /** The walk over the first `n` headers. */
  function Walk(bytes: File, l: Layout, endian: Endian, t: Table, meta: Metadata, n: nat)
    : (r: Result<Walked, ElfError>)
  {
    if n == 0 then Ok(Walked([], 0))
    else
      var w :- Walk(bytes, l, endian, t, meta, n - 1);
      WalkOne(bytes, l, endian, t, meta, w, n - 1)
  }

  datatype Boot = Boot(entry: nat, segments: seq<Segment>)

  function ParseClass(bytes: File, l: Layout, endian: Endian, meta: Metadata): (r: Result<Boot, ElfError>) {
    var t :- ReadTable(bytes, l, endian, meta);
    var w :- Walk(bytes, l, endian, t, meta, t.count);
    if w.loaded == 0 then Err(NoLoadableSegments) else Ok(Boot(t.entry, w.segments))
  }

  function Parse(bytes: File, meta: Metadata): (r: Result<Boot, ElfError>) {
    var ident :- DetectIdent(bytes);
    ParseClass(bytes, LayoutOf(ident.class_), ident.endian, meta)
  }

  // ----- the program header table, as the file lays it out

  /** Where entry `index` of a table starts: each one `size` bytes after the one before. */
  function EntryStart(offset: nat, size: nat, index: nat): (start: nat) {
    if index == 0 then offset else EntryStart(offset, size, index - 1) + size
  }

  lemma {:induction false} EntryStartIs(offset: nat, size: nat, index: nat)
    ensures EntryStart(offset, size, index) == offset + index * size
  {
    if index > 0 {
      EntryStartIs(offset, size, index - 1);
      assert index * size == (index - 1) * size + size;
    }
  }

  predicate TableInFile(bytes: File, l: Layout, t: Table) {
    EntryStart(t.offset, l.entrySize, t.count) <= |bytes|
  }

  predicate IsLayout(l: Layout) {
    l == LayoutOf(Class32) || l == LayoutOf(Class64)
  }

  lemma {:induction false} EntryInTable(offset: nat, size: nat, count: nat, index: nat)
    requires index < count
    ensures EntryStart(offset, size, index) + size <= EntryStart(offset, size, count)
  {
    if index < count - 1 {
      EntryInTable(offset, size, count - 1, index);
    }
  }

  /** Once the table is accepted no header offset wraps, and no header is cut short. */
  lemma HeaderOffsetsExact(bytes: File, l: Layout, t: Table, index: nat)
    requires IsLayout(l) && TableInFile(bytes, l, t) && index < t.count
    ensures HeaderAt(t, l, index) == EntryStart(t.offset, l.entrySize, index) == t.offset + index * l.entrySize
    ensures EntryStart(t.offset, l.entrySize, index) + l.entrySize <= |bytes|
    ensures forall f :: 0 <= f <= l.entrySize ==>
      WrappingAdd(HeaderAt(t, l, index), f) == EntryStart(t.offset, l.entrySize, index) + f
  {
    var start := EntryStart(t.offset, l.entrySize, index);
    EntryInTable(t.offset, l.entrySize, t.count, index);
    EntryStartIs(t.offset, l.entrySize, index);
    SmallMod(index * l.entrySize);
    SmallMod(start);
    forall f | 0 <= f <= l.entrySize
      ensures WrappingAdd(start, f) == start + f
    {
      SmallMod(start + f);
    }
  }

  /** The table of an accepted file lies in the file. */
  lemma AcceptedTable(bytes: File, l: Layout, endian: Endian, meta: Metadata)
    requires IsLayout(l) && ReadTable(bytes, l, endian, meta).Ok?
    ensures TableInFile(bytes, l, ReadTable(bytes, l, endian, meta).value)
  {
    var t := ReadTable(bytes, l, endian, meta).value;
    EntryStartIs(t.offset, l.entrySize, t.count);
  }

  function Kind(bytes: File, l: Layout, endian: Endian, t: Table, index: nat): (kind: nat)
    requires IsLayout(l) && TableInFile(bytes, l, t) && index < t.count
  {
    EntryInTable(t.offset, l.entrySize, t.count, index);
    Field(bytes, EntryStart(t.offset, l.entrySize, index), 4, endian)
  }

  function HeaderOf(bytes: File, l: Layout, endian: Endian, t: Table, index: nat): (h: Header)
    requires IsLayout(l) && TableInFile(bytes, l, t) && index < t.count
  {
    EntryInTable(t.offset, l.entrySize, t.count, index);
    var at := EntryStart(t.offset, l.entrySize, index);
    Header(Field(bytes, at + l.fileOffsetAt, l.word, endian), Field(bytes, at + l.physicalAt, l.word, endian),
           Field(bytes, at + l.fileSizeAt, l.word, endian), Field(bytes, at + l.memorySizeAt, l.word, endian))
  }

  /** The header asks for memory: the System V ABI gives loadable segments the type number one. */
  predicate Loads(bytes: File, l: Layout, endian: Endian, t: Table, index: nat)
    requires IsLayout(l) && TableInFile(bytes, l, t) && index < t.count
  {
    Kind(bytes, l, endian, t, index) == 1 && HeaderOf(bytes, l, endian, t, index).memorySize != 0
  }

  predicate HeaderOk(bytes: File, l: Layout, h: Header) {
    && h.fileSize <= h.memorySize && h.fileOffset + h.fileSize <= |bytes|
    && h.physical + h.memorySize <= l.addressLimit && h.memorySize <= ISIZE_MAX
  }

  function SegmentOf(bytes: File, l: Layout, h: Header): (s: Segment)
    requires HeaderOk(bytes, l, h)
  {
    Segment(h.physical, SegmentData(bytes[h.fileOffset..h.fileOffset + h.fileSize], h.memorySize))
  }

  predicate IndexOk(bytes: File, l: Layout, endian: Endian, t: Table, meta: Metadata, index: nat)
    requires IsLayout(l) && TableInFile(bytes, l, t) && index < t.count
  {
    && (Kind(bytes, l, endian, t, index) != 1 ==> !meta.headerFails(index))
    && (Loads(bytes, l, endian, t, index) ==> HeaderOk(bytes, l, HeaderOf(bytes, l, endian, t, index)))
  }

  predicate HeadersOk(bytes: File, l: Layout, endian: Endian, t: Table, meta: Metadata, n: nat)
    requires IsLayout(l) && TableInFile(bytes, l, t) && n <= t.count
  {
    forall index :: 0 <= index < n ==> IndexOk(bytes, l, endian, t, meta, index)
  }

  /** The segments that the first `n` headers ask for, in table order. */
  function Requested(bytes: File, l: Layout, endian: Endian, t: Table, n: nat): (segments: seq<Segment>)
    requires IsLayout(l) && TableInFile(bytes, l, t) && n <= t.count
  {
    if n == 0 then []
    else
      var rest := Requested(bytes, l, endian, t, n - 1);
      if Loads(bytes, l, endian, t, n - 1) && HeaderOk(bytes, l, HeaderOf(bytes, l, endian, t, n - 1))
      then rest + [SegmentOf(bytes, l, HeaderOf(bytes, l, endian, t, n - 1))]
      else rest
  }

  // ----- the walk reads the table

  lemma FieldReads(bytes: File, l: Layout, endian: Endian, t: Table, index: nat)
    requires IsLayout(l) && TableInFile(bytes, l, t) && index < t.count
    ensures ReadField(bytes, HeaderAt(t, l, index), 4, endian) == Ok(Kind(bytes, l, endian, t, index))
    ensures ReadHeader(bytes, l, endian, HeaderAt(t, l, index)) == Ok(HeaderOf(bytes, l, endian, t, index))
  {
    HeaderOffsetsExact(bytes, l, t, index);
    var at := EntryStart(t.offset, l.entrySize, index);
    ReadFieldIff(bytes, at, 4, endian);
    ReadFieldIff(bytes, at + l.fileOffsetAt, l.word, endian);
    ReadFieldIff(bytes, at + l.physicalAt, l.word, endian);
    ReadFieldIff(bytes, at + l.fileSizeAt, l.word, endian);
    ReadFieldIff(bytes, at + l.memorySizeAt, l.word, endian);
  }

  /** One `PT_LOAD` header adds its segment, when the header is well formed and the segment fits. */
  lemma LoadHeaderIs(bytes: File, l: Layout, segments: seq<Segment>, h: Header)
    requires IsLayout(l)
    ensures LoadHeader(bytes, l, segments, h).Ok? <==>
      HeaderOk(bytes, l, h) && AddSegment(segments, SegmentOf(bytes, l, h).start, SegmentOf(bytes, l, h).data).Ok?
    ensures LoadHeader(bytes, l, segments, h).Ok? ==>
      LoadHeader(bytes, l, segments, h).value
        == AddSegment(segments, SegmentOf(bytes, l, h).start, SegmentOf(bytes, l, h).data).value
  {
  }

  lemma AddOneMore(list: seq<Segment>, s: Segment)
    ensures AddAll(list + [s]) == (match AddAll(list)
                                   case Err(e) => Err(e)
                                   case Ok(segments) => AddSegment(segments, s.start, s.data))
  {
    assert (list + [s])[..|list|] == list;
  }

  lemma WalkOneIs(bytes: File, l: Layout, endian: Endian, t: Table, meta: Metadata, w: Walked, index: nat)
    requires IsLayout(l) && TableInFile(bytes, l, t) && index < t.count
    requires AddAll(Requested(bytes, l, endian, t, index)) == Ok(w.segments)
    requires w.loaded == |Requested(bytes, l, endian, t, index)|
    ensures
      var r := WalkOne(bytes, l, endian, t, meta, w, index);
      var requested := Requested(bytes, l, endian, t, index + 1);
      && (r.Ok? <==> IndexOk(bytes, l, endian, t, meta, index) && AddAll(requested).Ok?)
      && (r.Ok? ==> r.value == Walked(AddAll(requested).value, |requested|))
  {
    FieldReads(bytes, l, endian, t, index);
    var h := HeaderOf(bytes, l, endian, t, index);
    LoadHeaderIs(bytes, l, w.segments, h);
    if HeaderOk(bytes, l, h) {
      AddOneMore(Requested(bytes, l, endian, t, index), SegmentOf(bytes, l, h));
    }
  }

  lemma HeadersOkNext(bytes: File, l: Layout, endian: Endian, t: Table, meta: Metadata, index: nat)
    requires IsLayout(l) && TableInFile(bytes, l, t) && index < t.count
    ensures HeadersOk(bytes, l, endian, t, meta, index + 1)
        <==> HeadersOk(bytes, l, endian, t, meta, index) && IndexOk(bytes, l, endian, t, meta, index)
  {
  }

  lemma WalkNext(bytes: File, l: Layout, endian: Endian, t: Table, meta: Metadata, index: nat)
    ensures Walk(bytes, l, endian, t, meta, index + 1)
         == match Walk(bytes, l, endian, t, meta, index)
            case Err(e) => Err(e)
            case Ok(w) => WalkOne(bytes, l, endian, t, meta, w, index)
  {
  }

  /** The walk accepts exactly the well-formed headers whose segments can share an image, and
  gives the image of exactly those segments. */
  lemma {:induction false} WalkIs(bytes: File, l: Layout, endian: Endian, t: Table, meta: Metadata, n: nat)
    requires IsLayout(l) && TableInFile(bytes, l, t) && n <= t.count
    ensures
      var r := Walk(bytes, l, endian, t, meta, n);
      var requested := Requested(bytes, l, endian, t, n);
      && (r.Ok? <==> HeadersOk(bytes, l, endian, t, meta, n) && AddAll(requested).Ok?)
      && (r.Ok? ==> r.value == Walked(AddAll(requested).value, |requested|))
  {
    if n > 0 {
      var index := n - 1;
      WalkIs(bytes, l, endian, t, meta, index);
      WalkNext(bytes, l, endian, t, meta, index);
      HeadersOkNext(bytes, l, endian, t, meta, index);
      var r := Walk(bytes, l, endian, t, meta, index);
      if r.Ok? {
        WalkOneIs(bytes, l, endian, t, meta, r.value, index);
      } else if AddAll(Requested(bytes, l, endian, t, index)).Err? {
        StillRefused(bytes, l, endian, t, index);
      }
    }
  }

  lemma StillRefused(bytes: File, l: Layout, endian: Endian, t: Table, index: nat)
    requires IsLayout(l) && TableInFile(bytes, l, t) && index < t.count
    requires AddAll(Requested(bytes, l, endian, t, index)).Err?
    ensures AddAll(Requested(bytes, l, endian, t, index + 1)).Err?
  {
    var h := HeaderOf(bytes, l, endian, t, index);
    if HeaderOk(bytes, l, h) {
      AddOneMore(Requested(bytes, l, endian, t, index), SegmentOf(bytes, l, h));
    }
  }

  // ----- what an accepted file loads

  function FileLayout(bytes: File): (l: Layout)
    requires DetectIdent(bytes).Ok?
    ensures IsLayout(l)
  {
    LayoutOf(DetectIdent(bytes).value.class_)
  }

  function FileEndian(bytes: File): (endian: Endian)
    requires DetectIdent(bytes).Ok?
  {
    DetectIdent(bytes).value.endian
  }

  /** The file's header is in order: a known ident, the right sizes, a table inside the file. */
  predicate HasTable(bytes: File, meta: Metadata) {
    DetectIdent(bytes).Ok? && ReadTable(bytes, FileLayout(bytes), FileEndian(bytes), meta).Ok?
  }

  function TableOf(bytes: File, meta: Metadata): (t: Table)
    requires HasTable(bytes, meta)
    ensures TableInFile(bytes, FileLayout(bytes), t)
  {
    AcceptedTable(bytes, FileLayout(bytes), FileEndian(bytes), meta);
    ReadTable(bytes, FileLayout(bytes), FileEndian(bytes), meta).value
  }

  /** All the segments the file asks for. */
  function FileSegments(bytes: File, meta: Metadata): (segments: seq<Segment>)
    requires HasTable(bytes, meta)
  {
    var t := TableOf(bytes, meta);
    Requested(bytes, FileLayout(bytes), FileEndian(bytes), t, t.count)
  }

  lemma ParseIs(bytes: File, meta: Metadata)
    requires HasTable(bytes, meta)
    ensures
      var (l, endian, t) := (FileLayout(bytes), FileEndian(bytes), TableOf(bytes, meta));
      var all := AddAll(FileSegments(bytes, meta));
      && (Parse(bytes, meta).Ok? <==>
            HeadersOk(bytes, l, endian, t, meta, t.count) && all.Ok? && FileSegments(bytes, meta) != [])
      && (Parse(bytes, meta).Ok? ==> Parse(bytes, meta).value == Boot(t.entry, all.value))
  {
    var t := TableOf(bytes, meta);
    WalkIs(bytes, FileLayout(bytes), FileEndian(bytes), t, meta, t.count);
  }

  /** A file is accepted exactly when its header is in order, its program headers are well formed,
  and the segments they ask for are at least one, loadable and disjoint. */
  lemma ParseAcceptsIff(bytes: File, meta: Metadata)
    ensures Parse(bytes, meta).Ok? <==>
      && HasTable(bytes, meta)
      && var t := TableOf(bytes, meta);
      && HeadersOk(bytes, FileLayout(bytes), FileEndian(bytes), t, meta, t.count)
      && FileSegments(bytes, meta) != [] && Compatible(multiset(FileSegments(bytes, meta)))
  {
    if HasTable(bytes, meta) {
      ParseIs(bytes, meta);
      AddAllAccepts(FileSegments(bytes, meta));
    }
  }

  lemma ParsedSegments(bytes: File, meta: Metadata)
    requires Parse(bytes, meta).Ok?
    ensures HasTable(bytes, meta) && AddAll(FileSegments(bytes, meta)) == Ok(Parse(bytes, meta).value.segments)
    ensures
      var t := TableOf(bytes, meta);
      HeadersOk(bytes, FileLayout(bytes), FileEndian(bytes), t, meta, t.count)
  {
    ParseIs(bytes, meta);
  }

  lemma {:induction false} RequestedHas(bytes: File, l: Layout, endian: Endian, t: Table, n: nat, index: nat)
    requires IsLayout(l) && TableInFile(bytes, l, t) && index < n <= t.count
    requires Loads(bytes, l, endian, t, index) && HeaderOk(bytes, l, HeaderOf(bytes, l, endian, t, index))
    ensures SegmentOf(bytes, l, HeaderOf(bytes, l, endian, t, index)) in Requested(bytes, l, endian, t, n)
  {
    if index < n - 1 {
      RequestedHas(bytes, l, endian, t, n - 1, index);
    }
  }

  lemma {:induction false} RequestedOnly(bytes: File, l: Layout, endian: Endian, t: Table, n: nat, s: Segment)
    returns (index: nat)
    requires IsLayout(l) && TableInFile(bytes, l, t) && n <= t.count && s in Requested(bytes, l, endian, t, n)
    ensures index < n && Loads(bytes, l, endian, t, index) && HeaderOk(bytes, l, HeaderOf(bytes, l, endian, t, index))
    ensures s == SegmentOf(bytes, l, HeaderOf(bytes, l, endian, t, index))
  {
    if s in Requested(bytes, l, endian, t, n - 1) {
      index := RequestedOnly(bytes, l, endian, t, n - 1, s);
    } else {
      index := n - 1;
    }
  }

  /** Byte `i` of the memory of a header: from the file, then zero. */
  lemma SegmentByte(bytes: File, l: Layout, h: Header, i: nat)
    requires HeaderOk(bytes, l, h) && i < h.memorySize
    ensures SegmentOf(bytes, l, h).data[i] == if i < h.fileSize then bytes[h.fileOffset + i] else 0
  {
  }

  /** The image of `bytes` loaded into an empty store. */
  function Loaded(bytes: File, meta: Metadata, lineBytes: nat): (r: Loading)
    requires Parse(bytes, meta).Ok? && ValidLayout(lineBytes)
    ensures ValidStore(r.lines, lineBytes)
  {
    LoadImage(map[], lineBytes, Parse(bytes, meta).value.segments)
  }

  /** Header `index` of the file is `h`, and asks for memory. */
  predicate LoadsAs(bytes: File, meta: Metadata, index: nat, h: Header) {
    && HasTable(bytes, meta) && index < TableOf(bytes, meta).count
    && Loads(bytes, FileLayout(bytes), FileEndian(bytes), TableOf(bytes, meta), index)
    && h == HeaderOf(bytes, FileLayout(bytes), FileEndian(bytes), TableOf(bytes, meta), index)
  }

  lemma LoadsAreSegments(bytes: File, meta: Metadata, index: nat, h: Header)
    requires Parse(bytes, meta).Ok? && LoadsAs(bytes, meta, index, h)
    ensures HeaderOk(bytes, FileLayout(bytes), h) && SegmentOf(bytes, FileLayout(bytes), h) in FileSegments(bytes, meta)
  {
    var l, endian, t := FileLayout(bytes), FileEndian(bytes), TableOf(bytes, meta);
    ParsedSegments(bytes, meta);
    assert IndexOk(bytes, l, endian, t, meta, index);
    RequestedHas(bytes, l, endian, t, t.count, index);
  }

  /** The header's memory covers the address. */
  predicate Claims(h: Header, a: nat) {
    h.physical <= a < h.physical + h.memorySize
  }

  /** What a header puts at an address of its memory: the file byte, or zero past the file's part. */
  predicate Puts(bytes: File, h: Header, a: nat, value: Byte) {
    && Claims(h, a)
    && var i := a - h.physical;
    && (i < h.fileSize ==> h.fileOffset + i < |bytes|)
    && value == if i < h.fileSize then bytes[h.fileOffset + i] else 0
  }

  lemma SegmentPuts(bytes: File, l: Layout, h: Header, a: nat, s: Segment)
    requires HeaderOk(bytes, l, h) && Claims(h, a) && s == SegmentOf(bytes, l, h)
    ensures Covers(s, a) && Puts(bytes, h, a, s.data[a - s.start])
  {
    SegmentByte(bytes, l, h, a - h.physical);
  }

  lemma HeaderSegment(bytes: File, meta: Metadata, index: nat, h: Header, a: nat) returns (s: Segment)
    requires Parse(bytes, meta).Ok? && LoadsAs(bytes, meta, index, h) && Claims(h, a)
    ensures s in FileSegments(bytes, meta) && Covers(s, a) && Puts(bytes, h, a, s.data[a - s.start])
  {
    LoadsAreSegments(bytes, meta, index, h);
    s := SegmentOf(bytes, FileLayout(bytes), h);
    SegmentPuts(bytes, FileLayout(bytes), h, a, s);
  }

  lemma LoadedSegment(bytes: File, meta: Metadata, lineBytes: nat, s: Segment, a: nat)
    requires Parse(bytes, meta).Ok? && ValidLayout(lineBytes) && HasTable(bytes, meta)
    requires s in FileSegments(bytes, meta) && Covers(s, a) && a < TopLine(lineBytes)
    ensures ByteAt(Loaded(bytes, meta, lineBytes).lines, lineBytes, a) == s.data[a - s.start]
  {
    ParsedSegments(bytes, meta);
    SegmentsLoaded(FileSegments(bytes, meta), map[], lineBytes, s, a);
  }

  /** An accepted file loaded into an empty store of any line size is its `PT_LOAD` image: each
  header's memory holds its file bytes, then zeros. */
  lemma LoadedBytes(bytes: File, meta: Metadata, lineBytes: nat, index: nat, h: Header, a: nat)
    requires Parse(bytes, meta).Ok? && ValidLayout(lineBytes) && LoadsAs(bytes, meta, index, h)
    requires Claims(h, a) && a < TopLine(lineBytes)
    ensures Puts(bytes, h, a, ByteAt(Loaded(bytes, meta, lineBytes).lines, lineBytes, a))
  {
    var s := HeaderSegment(bytes, meta, index, h, a);
    LoadedSegment(bytes, meta, lineBytes, s, a);
  }

  /** Every other byte reads zero. */
  lemma ElsewhereZero(bytes: File, meta: Metadata, lineBytes: nat, a: nat)
    requires Parse(bytes, meta).Ok? && ValidLayout(lineBytes)
    requires forall index, h :: LoadsAs(bytes, meta, index, h) ==> !Claims(h, a)
    ensures ByteAt(Loaded(bytes, meta, lineBytes).lines, lineBytes, a) == 0
  {
    ParsedSegments(bytes, meta);
    var l, endian, t := FileLayout(bytes), FileEndian(bytes), TableOf(bytes, meta);
    forall s | s in FileSegments(bytes, meta)
      ensures !Covers(s, a)
    {
      var index := RequestedOnly(bytes, l, endian, t, t.count, s);
      assert LoadsAs(bytes, meta, index, HeaderOf(bytes, l, endian, t, index));
    }
    OthersKept(FileSegments(bytes, meta), map[], lineBytes, a);
  }

  /** The load is complete exactly when no header's memory reaches the last line of the address
  space; for a 32-bit file it always is. */
  lemma LoadedCompletely(bytes: File, meta: Metadata, lineBytes: nat)
    requires Parse(bytes, meta).Ok? && ValidLayout(lineBytes) && HasTable(bytes, meta)
    ensures Loaded(bytes, meta, lineBytes).complete <==> BelowTopLine(FileSegments(bytes, meta), lineBytes)
    ensures DetectIdent(bytes).value.class_.Class32? ==> Loaded(bytes, meta, lineBytes).complete
  {
    var l, endian, t := FileLayout(bytes), FileEndian(bytes), TableOf(bytes, meta);
    ParsedSegments(bytes, meta);
    LoadingCompletes(FileSegments(bytes, meta), map[], lineBytes);
    if DetectIdent(bytes).value.class_.Class32? {
      forall s | s in FileSegments(bytes, meta)
        ensures End(s) <= TopLine(lineBytes)
      {
        var index := RequestedOnly(bytes, l, endian, t, t.count, s);
      }
    }
  }

  /** Section header zero is where the file header says, with the right size. */
  predicate SectionZeroInFile(bytes: File, l: Layout, endian: Endian) {
    && l.sectionsAt + l.word <= |bytes| && l.sectionSizeAt + 2 <= |bytes|
    && Field(bytes, l.sectionSizeAt, 2, endian) == l.sectionSize
    && Field(bytes, l.sectionsAt, l.word, endian) != 0
    && Field(bytes, l.sectionsAt, l.word, endian) + l.sectionSize <= |bytes|
  }

  /** An escaped header count is the `sh_info` of section header zero, read without wrapping, and
  is refused exactly when that header is missing, mis-sized or out of the file. */
  lemma EscapedCount(bytes: File, l: Layout, endian: Endian)
    requires IsLayout(l)
    ensures HeaderCount(bytes, l, endian, 0xffff).Ok? <==> SectionZeroInFile(bytes, l, endian)
    ensures SectionZeroInFile(bytes, l, endian) ==>
      HeaderCount(bytes, l, endian, 0xffff).value
      == Field(bytes, Field(bytes, l.sectionsAt, l.word, endian) + l.infoAt, 4, endian)
  {
    ReadFieldIff(bytes, l.sectionsAt, l.word, endian);
    ReadFieldIff(bytes, l.sectionSizeAt, 2, endian);
    if SectionZeroInFile(bytes, l, endian) {
      var section := Field(bytes, l.sectionsAt, l.word, endian);
      SmallMod(section + l.infoAt);
      ReadFieldIff(bytes, section + l.infoAt, 4, endian);
    }
  }

  /** Every other count stands for itself. */
  lemma PlainCount(bytes: File, l: Layout, endian: Endian, raw: nat)
    requires raw != 0xffff
    ensures HeaderCount(bytes, l, endian, raw) == Ok(raw)
  {
  }

  // ----- the layout is that of the System V ABI

  /** The widths of the file header's fields, in order; `w` is the width of an address. */
  function FileHeaderWidths(w: nat): (widths: seq<nat>) {
    [16, 2, 2, 4, w, w, w, 4, 2, 2, 2, 2, 2, 2]
  }

  function SectionHeaderWidths(w: nat): (widths: seq<nat>) {
    [4, 4, w, w, w, w, 4, 4, w, w]
  }

  /** The flags stand second in the 64-bit class, and seventh in the 32-bit one. */
  function ProgramHeaderWidths(class_: Class): (widths: seq<nat>) {
    if class_.Class64? then [4, 4, 8, 8, 8, 8, 8, 8] else [4, 4, 4, 4, 4, 4, 4, 4]
  }

  /** Where field `i` starts. */
  function FieldStart(widths: seq<nat>, i: nat): (start: nat)
    requires i <= |widths|
  {
    if i == 0 then 0 else FieldStart(widths, i - 1) + widths[i - 1]
  }

  /** Each offset and size of the layout is where the ABI's field list puts that field. */
  lemma LayoutFollowsAbi(class_: Class)
    ensures
      var l := LayoutOf(class_);
      var w := if class_.Class64? then 8 else 4;
      var header, section, program := FileHeaderWidths(w), SectionHeaderWidths(w), ProgramHeaderWidths(class_);
      && l.word == w
      && l.entryAt == FieldStart(header, 4) && l.tableAt == FieldStart(header, 5)
      && l.sectionsAt == FieldStart(header, 6) && l.headerSizeAt == FieldStart(header, 8)
      && l.entrySizeAt == FieldStart(header, 9) && l.countAt == FieldStart(header, 10)
      && l.sectionSizeAt == FieldStart(header, 11) && l.headerSize == FieldStart(header, 14)
      && l.infoAt == FieldStart(section, 7) && l.sectionSize == FieldStart(section, 10)
      && l.fileOffsetAt == FieldStart(program, if class_.Class64? then 2 else 1)
      && l.physicalAt == FieldStart(program, if class_.Class64? then 4 else 3)
      && l.fileSizeAt == FieldStart(program, if class_.Class64? then 5 else 4)
      && l.memorySizeAt == FieldStart(program, if class_.Class64? then 6 else 5)
      && l.entrySize == FieldStart(program, 8)
      && l.addressLimit == (if class_.Class64? then Pow2(64) - 1 else Pow2(32))
  {
    var w := if class_.Class64? then 8 else 4;
    FileHeaderStarts(FileHeaderWidths(w), w);
    SectionHeaderStarts(SectionHeaderWidths(w), w);
    ProgramHeaderStarts(class_, ProgramHeaderWidths(class_));
    Pow2Values();
  }

  lemma StartAfter(widths: seq<nat>, i: nat)
    requires i < |widths|
    ensures FieldStart(widths, i + 1) == FieldStart(widths, i) + widths[i]
  {
  }

  lemma FileHeaderStarts(widths: seq<nat>, w: nat)
    requires widths == FileHeaderWidths(w)
    ensures FieldStart(widths, 4) == 24 && FieldStart(widths, 5) == 24 + w && FieldStart(widths, 6) == 24 + 2 * w
    ensures FieldStart(widths, 8) == 28 + 3 * w && FieldStart(widths, 9) == 30 + 3 * w
    ensures FieldStart(widths, 10) == 32 + 3 * w && FieldStart(widths, 11) == 34 + 3 * w
    ensures FieldStart(widths, 14) == 40 + 3 * w
  {
    EarlyStarts(widths, w);
    StartAfter(widths, 6);
    StartAfter(widths, 7);
    StartAfter(widths, 8);
    StartAfter(widths, 9);
    StartAfter(widths, 10);
    StartAfter(widths, 11);
    StartAfter(widths, 12);
    StartAfter(widths, 13);
  }

  lemma EarlyStarts(widths: seq<nat>, w: nat)
    requires widths == FileHeaderWidths(w)
    ensures FieldStart(widths, 4) == 24 && FieldStart(widths, 5) == 24 + w && FieldStart(widths, 6) == 24 + 2 * w
  {
    StartAfter(widths, 0);
    StartAfter(widths, 1);
    StartAfter(widths, 2);
    StartAfter(widths, 3);
    StartAfter(widths, 4);
    StartAfter(widths, 5);
  }

  lemma SectionHeaderStarts(widths: seq<nat>, w: nat)
    requires widths == SectionHeaderWidths(w)
    ensures FieldStart(widths, 7) == 12 + 4 * w && FieldStart(widths, 10) == 16 + 6 * w
  {
    StartAfter(widths, 0);
    StartAfter(widths, 1);
    StartAfter(widths, 2);
    StartAfter(widths, 3);
    StartAfter(widths, 4);
    StartAfter(widths, 5);
    StartAfter(widths, 6);
    StartAfter(widths, 7);
    StartAfter(widths, 8);
    StartAfter(widths, 9);
  }

  lemma ProgramHeaderStarts(class_: Class, widths: seq<nat>)
    requires widths == ProgramHeaderWidths(class_)
    ensures class_.Class64? ==>
      && FieldStart(widths, 2) == 8 && FieldStart(widths, 4) == 24 && FieldStart(widths, 5) == 32
      && FieldStart(widths, 6) == 40 && FieldStart(widths, 8) == 56
    ensures class_.Class32? ==>
      && FieldStart(widths, 1) == 4 && FieldStart(widths, 3) == 12 && FieldStart(widths, 4) == 16
      && FieldStart(widths, 5) == 20 && FieldStart(widths, 8) == 32
  {
    StartAfter(widths, 0);
    StartAfter(widths, 1);
    StartAfter(widths, 2);
    StartAfter(widths, 3);
    StartAfter(widths, 4);
    StartAfter(widths, 5);
    StartAfter(widths, 6);
    StartAfter(widths, 7);
  }

  // ----- the loops

  /** Fills a zeroed buffer with the file's part. */
  method ZeroedSegmentData(memorySize: nat, file: seq<Byte>) returns (data: seq<Byte>)
    requires |file| <= memorySize
    ensures data == SegmentData(file, memorySize)
  {
    var buffer := new Byte[memorySize](_ => 0);
    var i := 0;
    while i < |file|
      invariant i <= |file|
      invariant forall k :: 0 <= k < memorySize ==> buffer[k] == if k < i then file[k] else 0
    {
      buffer[i] := file[i];
      i := i + 1;
    }
    data := buffer[..];
  }

  /** The walk over the program headers. */
  method WalkHeaders(bytes: File, l: Layout, endian: Endian, t: Table, meta: Metadata)
    returns (r: Result<Walked, ElfError>)
    ensures r == Walk(bytes, l, endian, t, meta, t.count)
  {
    var w, index := Walked([], 0), 0;
    while index < t.count
      invariant index <= t.count
      invariant Walk(bytes, l, endian, t, meta, index) == Ok(w)
    {
      var one := WalkOne(bytes, l, endian, t, meta, w, index);
      WalkNext(bytes, l, endian, t, meta, index);
      if one.Err? {
        WalkStops(bytes, l, endian, t, meta, index + 1, t.count);
        return Err(one.error);
      }
      w := one.value;
      index := index + 1;
    }
    return Ok(w);
  }

  lemma {:induction false} WalkStops(bytes: File, l: Layout, endian: Endian, t: Table, meta: Metadata, m: nat, n: nat)
    requires m <= n && Walk(bytes, l, endian, t, meta, m).Err?
    ensures Walk(bytes, l, endian, t, meta, n) == Walk(bytes, l, endian, t, meta, m)
  {
    if m < n {
      WalkStops(bytes, l, endian, t, meta, m, n - 1);
    }
  }
}
