/** A writer of ELF executables, and the round trip through the parser: what is written is what is
loaded, for both classes and both byte orders. */
module ElfFiles {
  import opened Common
  import opened Memory
  import opened Image
  import opened Elf

  // ----- numbers as bytes

  function ToBigEndian(x: nat, width: nat): (bytes: seq<Byte>)
    ensures |bytes| == width
  {
    if width == 0 then [] else ToBigEndian(x / 256, width - 1) + [x % 256]
  }

  function Encoded(x: nat, width: nat, endian: Endian): (bytes: seq<Byte>)
    ensures |bytes| == width
  {
    if endian.Little? then ToLittleEndian(x, width) else ToBigEndian(x, width)
  }

  lemma RangeValues()
    ensures Range(2) == 0x1_0000 && Range(4) == 0x1_0000_0000 && Range(8) == U64_MAX + 1
  {
  }

  lemma {:induction false} EncodedReads(x: nat, width: nat, endian: Endian)
    requires x < Range(width)
    ensures Number(Encoded(x, width, endian), endian) == x
  {
    if width > 0 {
      EncodedReads(x / 256, width - 1, endian);
      if endian.Little? {
        assert ToLittleEndian(x, width)[1..] == ToLittleEndian(x / 256, width - 1);
      } else {
        var bytes := ToBigEndian(x, width);
        assert bytes[..|bytes| - 1] == ToBigEndian(x / 256, width - 1);
      }
    }
  }

  /** In the other byte order the first byte weighs most. */
  lemma {:induction false} BigPlaceValue(bytes: seq<Byte>, b: Byte)
    ensures Number([b] + bytes, Big) == b * Range(|bytes|) + Number(bytes, Big)
  {
    var whole := [b] + bytes;
    if bytes == [] {
      assert whole[..0] == bytes;
    } else {
      var n := |bytes| - 1;
      BigPlaceValue(bytes[..n], b);
      assert whole[..n + 1] == [b] + bytes[..n];
      Shift(b, Range(n));
    }
  }

  // ----- a file as a list of parts

  /** Where part `i` starts. */
  function Start(parts: seq<seq<Byte>>, i: nat): (start: nat)
    requires i <= |parts|
  {
    if i == 0 then 0 else Start(parts, i - 1) + |parts[i - 1]|
  }

  lemma {:induction false} StartOfRest(parts: seq<seq<Byte>>, i: nat)
    requires 0 < i <= |parts|
    ensures Start(parts, i) == |parts[0]| + Start(parts[1..], i - 1)
  {
    if i > 1 {
      StartOfRest(parts, i - 1);
    }
  }

  lemma {:induction false} PartAt(parts: seq<seq<Byte>>, i: nat)
    requires i < |parts|
    ensures Start(parts, i) + |parts[i]| <= |Joined(parts)|
    ensures Joined(parts)[Start(parts, i)..Start(parts, i) + |parts[i]|] == parts[i]
  {
    if i > 0 {
      PartAt(parts[1..], i - 1);
      StartOfRest(parts, i);
      var s, rest := Start(parts[1..], i - 1), Joined(parts[1..]);
      assert Joined(parts)[|parts[0]| + s..|parts[0]| + s + |parts[i]|] == rest[s..s + |parts[i]|];
    }
  }

  lemma {:induction false} JoinedLength(parts: seq<seq<Byte>>)
    ensures |Joined(parts)| == Start(parts, |parts|)
  {
    if parts != [] {
      JoinedLength(parts[1..]);
      StartOfRest(parts, |parts|);
    }
  }

  /** The bytes hold the number `x` in `width` bytes at `at`. */
  predicate FieldIs(bytes: seq<Byte>, at: nat, width: nat, e: Endian, x: nat) {
    at + width <= |bytes| && Number(bytes[at..at + width], e) == x
  }

  lemma PartIsField(parts: seq<seq<Byte>>, i: nat, at: nat, x: nat, width: nat, e: Endian)
    requires i < |parts| && parts[i] == Encoded(x, width, e) && x < Range(width) && Start(parts, i) == at
    ensures FieldIs(Joined(parts), at, width, e, x)
  {
    PartAt(parts, i);
    EncodedReads(x, width, e);
  }

  /** A field of a part is a field of the whole. */
  lemma FieldInSlice(bytes: seq<Byte>, s: nat, inner: seq<Byte>, at: nat, width: nat, e: Endian, x: nat)
    requires s + |inner| <= |bytes| && bytes[s..s + |inner|] == inner && FieldIs(inner, at, width, e, x)
    ensures FieldIs(bytes, s + at, width, e, x)
  {
    var whole, part := bytes[s + at..s + at + width], inner[at..at + width];
    assert forall k :: 0 <= k < width ==> whole[k] == bytes[s..s + |inner|][at + k] == part[k];
    assert whole == part;
  }

  // ----- writing

  /** A program to load: its physical address, its bytes in the file, and its size in memory. */
  datatype Program = Program(physical: nat, file: seq<Byte>, memorySize: nat)

  /** What to write: the class and byte order of the file, its entry point and its programs. */
  datatype Executable = Executable(class_: Class, endian: Endian, entry: nat, programs: seq<Program>)

  function IdentBytes(class_: Class, endian: Endian): (bytes: seq<Byte>)
    ensures |bytes| == 16
  {
    [0x7f, 0x45, 0x4c, 0x46, if class_.Class32? then 1 else 2, if endian.Little? then 1 else 2,
     1, 0, 0, 0, 0, 0, 0, 0, 0, 0]
  }

  /** The file header: ident; type, machine and version; entry, program table and section table;
  flags; and the sizes and counts of headers. */
  function HeaderParts(class_: Class, e: Endian, entry: nat, count: nat): (parts: seq<seq<Byte>>) {
    var l := LayoutOf(class_);
    [IdentBytes(class_, e), Encoded(0, 8, e),
     Encoded(entry, l.word, e), Encoded(l.headerSize, l.word, e), Encoded(0, l.word, e), Encoded(0, 4, e),
     Encoded(l.headerSize, 2, e), Encoded(l.entrySize, 2, e), Encoded(count, 2, e), Encoded(0, 6, e)]
  }

  /** A program header; the flags stand in different places in the two classes. */
  function ProgramParts(class_: Class, e: Endian, h: Header): (parts: seq<seq<Byte>>) {
    match class_
    case Class64 =>
      [Encoded(1, 4, e), Encoded(5, 4, e), Encoded(h.fileOffset, 8, e), Encoded(0, 8, e),
       Encoded(h.physical, 8, e),
       Encoded(h.fileSize, 8, e), Encoded(h.memorySize, 8, e), Encoded(1, 8, e)]
    case Class32 =>
      [Encoded(1, 4, e), Encoded(h.fileOffset, 4, e), Encoded(0, 4, e), Encoded(h.physical, 4, e),
       Encoded(h.fileSize, 4, e), Encoded(h.memorySize, 4, e), Encoded(5, 4, e), Encoded(1, 4, e)]
  }

  // ----- where the fields are

  lemma StartNext(parts: seq<seq<Byte>>, i: nat, length: nat)
    requires i < |parts| && |parts[i]| == length
    ensures Start(parts, i + 1) == Start(parts, i) + length
  {
  }

  lemma HeaderStarts(parts: seq<seq<Byte>>, w: nat)
    requires |parts| == 10
    requires |parts[0]| == 16 && |parts[1]| == 8 && |parts[2]| == w && |parts[3]| == w && |parts[4]| == w
      && |parts[5]| == 4
    requires |parts[6]| == 2 && |parts[7]| == 2 && |parts[8]| == 2 && |parts[9]| == 6
    ensures Start(parts, 2) == 24 && Start(parts, 3) == 24 + w
    ensures Start(parts, 6) == 28 + 3 * w && Start(parts, 7) == 30 + 3 * w && Start(parts, 8) == 32 + 3 * w
    ensures |Joined(parts)| == 40 + 3 * w
  {
    StartNext(parts, 1, 8);
    StartNext(parts, 2, w);
    StartNext(parts, 3, w);
    StartNext(parts, 4, w);
    StartNext(parts, 5, 4);
    StartNext(parts, 6, 2);
    StartNext(parts, 7, 2);
    StartNext(parts, 8, 2);
    StartNext(parts, 9, 6);
    JoinedLength(parts);
  }

  lemma {:induction false} EvenStarts(parts: seq<seq<Byte>>, k: nat, w: nat, j: nat)
    requires k + j <= |parts| && forall i :: k <= i < k + j ==> |parts[i]| == w
    ensures Start(parts, k + j) == Start(parts, k) + w * j
  {
    if j > 0 {
      EvenStarts(parts, k, w, j - 1);
      assert w * j == w * (j - 1) + w;
    }
  }

  /** A number the parser reads: where it is, how wide, and what it is. */
  datatype Spec = Spec(at: nat, width: nat, value: nat)

  predicate Holds(bytes: seq<Byte>, s: nat, e: Endian, specs: seq<Spec>) {
    forall k :: 0 <= k < |specs| ==> HasSpec(bytes, s, e, specs[k])
  }

  /** What a part of the bytes holds, the bytes hold there. */
  lemma HoldsWithin(bytes: seq<Byte>, s: nat, inner: seq<Byte>, e: Endian, specs: seq<Spec>)
    requires s + |inner| <= |bytes| && bytes[s..s + |inner|] == inner && Holds(inner, 0, e, specs)
    ensures Holds(bytes, s, e, specs)
  {
    forall k | 0 <= k < |specs|
      ensures HasSpec(bytes, s, e, specs[k])
    {
      assert HasSpec(inner, 0, e, specs[k]);
      FieldInSlice(bytes, s, inner, specs[k].at, specs[k].width, e, specs[k].value);
    }
  }

  predicate HasSpec(bytes: seq<Byte>, s: nat, e: Endian, spec: Spec) {
    FieldIs(bytes, s + spec.at, spec.width, e, spec.value)
  }

  lemma HoldsFive(bytes: seq<Byte>, s: nat, e: Endian, specs: seq<Spec>)
    requires |specs| == 5 && HasSpec(bytes, s, e, specs[0]) && HasSpec(bytes, s, e, specs[1])
      && HasSpec(bytes, s, e, specs[2])
    requires HasSpec(bytes, s, e, specs[3]) && HasSpec(bytes, s, e, specs[4])
    ensures Holds(bytes, s, e, specs)
  {
  }

  /** What the parser looks for in the file header. */
  function HeaderSpecs(l: Layout, entry: nat, count: nat): (specs: seq<Spec>) {
    [Spec(l.entryAt, l.word, entry), Spec(l.tableAt, l.word, l.headerSize), Spec(l.headerSizeAt, 2, l.headerSize),
     Spec(l.entrySizeAt, 2, l.entrySize), Spec(l.countAt, 2, count)]
  }

  lemma HeaderFields(parts: seq<seq<Byte>>, l: Layout, e: Endian, entry: nat, count: nat)
    requires IsLayout(l) && |parts| == 10 && entry < Range(l.word) && count < Range(2)
    requires |parts[0]| == 16 && |parts[1]| == 8 && |parts[4]| == l.word && |parts[5]| == 4 && |parts[9]| == 6
    requires parts[2] == Encoded(entry, l.word, e) && parts[3] == Encoded(l.headerSize, l.word, e)
    requires parts[6] == Encoded(l.headerSize, 2, e) && parts[7] == Encoded(l.entrySize, 2, e)
      && parts[8] == Encoded(count, 2, e)
    ensures |Joined(parts)| == l.headerSize && Joined(parts)[..16] == parts[0]
    ensures Holds(Joined(parts), 0, e, HeaderSpecs(l, entry, count))
  {
    RangeValues();
    HeaderStarts(parts, l.word);
    PartAt(parts, 0);
    PartIsField(parts, 2, l.entryAt, entry, l.word, e);
    PartIsField(parts, 3, l.tableAt, l.headerSize, l.word, e);
    PartIsField(parts, 6, l.headerSizeAt, l.headerSize, 2, e);
    PartIsField(parts, 7, l.entrySizeAt, l.entrySize, 2, e);
    PartIsField(parts, 8, l.countAt, count, 2, e);
    HoldsFive(Joined(parts), 0, e, HeaderSpecs(l, entry, count));
  }

  lemma HeaderWritten(class_: Class, e: Endian, entry: nat, count: nat)
    requires entry < Range(LayoutOf(class_).word) && count < Range(2)
    ensures
      var bytes := Joined(HeaderParts(class_, e, entry, count));
      && |bytes| == LayoutOf(class_).headerSize && bytes[..16] == IdentBytes(class_, e)
      && Holds(bytes, 0, e, HeaderSpecs(LayoutOf(class_), entry, count))
  {
    HeaderFields(HeaderParts(class_, e, entry, count), LayoutOf(class_), e, entry, count);
  }

  /** What the parser looks for in a program header that asks for memory. */
  function ProgramSpecs(l: Layout, h: Header): (specs: seq<Spec>) {
    [Spec(0, 4, 1), Spec(l.fileOffsetAt, l.word, h.fileOffset), Spec(l.physicalAt, l.word, h.physical),
     Spec(l.fileSizeAt, l.word, h.fileSize), Spec(l.memorySizeAt, l.word, h.memorySize)]
  }

  predicate Encodable(l: Layout, h: Header) {
    && h.fileOffset < Range(l.word) && h.physical < Range(l.word)
    && h.fileSize < Range(l.word) && h.memorySize < Range(l.word)
  }

  lemma ProgramFields32(parts: seq<seq<Byte>>, e: Endian, h: Header)
    requires |parts| == 8 && Encodable(LayoutOf(Class32), h) && forall k :: 0 <= k < 8 ==> |parts[k]| == 4
    requires parts[0] == Encoded(1, 4, e) && parts[1] == Encoded(h.fileOffset, 4, e)
      && parts[3] == Encoded(h.physical, 4, e)
    requires parts[4] == Encoded(h.fileSize, 4, e) && parts[5] == Encoded(h.memorySize, 4, e)
    ensures |Joined(parts)| == 32 && Holds(Joined(parts), 0, e, ProgramSpecs(LayoutOf(Class32), h))
  {
    RangeValues();
    JoinedLength(parts);
    EvenStarts(parts, 0, 4, 8);
    EvenStarts(parts, 0, 4, 1);
    EvenStarts(parts, 0, 4, 3);
    EvenStarts(parts, 0, 4, 4);
    EvenStarts(parts, 0, 4, 5);
    PartIsField(parts, 0, 0, 1, 4, e);
    PartIsField(parts, 1, 4, h.fileOffset, 4, e);
    PartIsField(parts, 3, 12, h.physical, 4, e);
    PartIsField(parts, 4, 16, h.fileSize, 4, e);
    PartIsField(parts, 5, 20, h.memorySize, 4, e);
    HoldsFive(Joined(parts), 0, e, ProgramSpecs(LayoutOf(Class32), h));
  }

  lemma ProgramFields64(parts: seq<seq<Byte>>, e: Endian, h: Header)
    requires |parts| == 8 && Encodable(LayoutOf(Class64), h)
    requires |parts[0]| == 4 && |parts[1]| == 4 && forall k :: 2 <= k < 8 ==> |parts[k]| == 8
    requires parts[0] == Encoded(1, 4, e) && parts[2] == Encoded(h.fileOffset, 8, e)
      && parts[4] == Encoded(h.physical, 8, e)
    requires parts[5] == Encoded(h.fileSize, 8, e) && parts[6] == Encoded(h.memorySize, 8, e)
    ensures |Joined(parts)| == 56 && Holds(Joined(parts), 0, e, ProgramSpecs(LayoutOf(Class64), h))
  {
    RangeValues();
    JoinedLength(parts);
    EvenStarts(parts, 0, 4, 2);
    EvenStarts(parts, 2, 8, 6);
    EvenStarts(parts, 2, 8, 2);
    EvenStarts(parts, 2, 8, 3);
    EvenStarts(parts, 2, 8, 4);
    PartIsField(parts, 0, 0, 1, 4, e);
    PartIsField(parts, 2, 8, h.fileOffset, 8, e);
    PartIsField(parts, 4, 24, h.physical, 8, e);
    PartIsField(parts, 5, 32, h.fileSize, 8, e);
    PartIsField(parts, 6, 40, h.memorySize, 8, e);
    HoldsFive(Joined(parts), 0, e, ProgramSpecs(LayoutOf(Class64), h));
  }

  // ----- the whole file

  function Files(programs: seq<Program>): (files: seq<seq<Byte>>) {
    seq(|programs|, i requires 0 <= i < |programs| => programs[i].file)
  }

  /** Where program `i` starts in the file: after the table and the programs before it. */
  function FileOffset(x: Executable, i: nat): (offset: nat)
    requires i <= |x.programs|
  {
    var l := LayoutOf(x.class_);
    EntryStart(l.headerSize, l.entrySize, |x.programs|) + Start(Files(x.programs), i)
  }

  function HeaderFor(x: Executable, i: nat): (h: Header)
    requires i < |x.programs|
  {
    var p := x.programs[i];
    Header(FileOffset(x, i), p.physical, |p.file|, p.memorySize)
  }

  function ProgramBytes(x: Executable, i: nat): (bytes: seq<Byte>)
    requires i < |x.programs|
  {
    Joined(ProgramParts(x.class_, x.endian, HeaderFor(x, i)))
  }

  function TableParts(x: Executable): (parts: seq<seq<Byte>>) {
    seq(|x.programs|, i requires 0 <= i < |x.programs| => ProgramBytes(x, i))
  }

  /** An executable that fits its class: numbers that can be encoded, programs that fit the address
  space, and a file that fits in memory. */
  predicate Writable(x: Executable) {
    var l := LayoutOf(x.class_);
    && x.entry < Range(l.word) && |x.programs| < 0xffff
    && FileOffset(x, |x.programs|) <= ISIZE_MAX && FileOffset(x, |x.programs|) < Range(l.word)
    && forall i :: 0 <= i < |x.programs| ==> ProgramFits(l, x.programs[i])
  }

  predicate ProgramFits(l: Layout, p: Program) {
    && 0 < p.memorySize <= ISIZE_MAX && |p.file| <= p.memorySize
    && p.physical + p.memorySize <= l.addressLimit
    && p.physical < Range(l.word) && p.memorySize < Range(l.word)
  }

  lemma {:induction false} StartsGrow(parts: seq<seq<Byte>>, i: nat, n: nat)
    requires i <= n <= |parts|
    ensures Start(parts, i) <= Start(parts, n)
  {
    if i < n {
      StartsGrow(parts, i, n - 1);
    }
  }

  lemma HeaderEncodable(x: Executable, i: nat)
    requires Writable(x) && i < |x.programs|
    ensures Encodable(LayoutOf(x.class_), HeaderFor(x, i))
    ensures HeaderFor(x, i).fileOffset + |x.programs[i].file| <= FileOffset(x, |x.programs|)
  {
    StartsGrow(Files(x.programs), i + 1, |x.programs|);
    assert ProgramFits(LayoutOf(x.class_), x.programs[i]);
  }

  lemma ProgramWritten(x: Executable, i: nat)
    requires Writable(x) && i < |x.programs|
    ensures |ProgramBytes(x, i)| == LayoutOf(x.class_).entrySize
    ensures Holds(ProgramBytes(x, i), 0, x.endian, ProgramSpecs(LayoutOf(x.class_), HeaderFor(x, i)))
  {
    HeaderEncodable(x, i);
    if x.class_.Class32? {
      ProgramFields32(ProgramParts(x.class_, x.endian, HeaderFor(x, i)), x.endian, HeaderFor(x, i));
    } else {
      ProgramFields64(ProgramParts(x.class_, x.endian, HeaderFor(x, i)), x.endian, HeaderFor(x, i));
    }
  }

  predicate SameSize(table: seq<seq<Byte>>, size: nat) {
    forall k :: 0 <= k < |table| ==> |table[k]| == size
  }

  /** The parts are a head, a table and files, one after the other. */
  predicate Layered(parts: seq<seq<Byte>>, head: seq<Byte>, table: seq<seq<Byte>>, files: seq<seq<Byte>>) {
    && |parts| == 1 + |table| + |files| && parts[0] == head
    && (forall i :: 0 <= i < |table| ==> parts[1 + i] == table[i])
    && (forall i :: 0 <= i < |files| ==> parts[1 + |table| + i] == files[i])
  }

  /** Behind a head, entries of one size start one size apart. */
  lemma {:induction false} EntriesStart(parts: seq<seq<Byte>>, head: seq<Byte>, table: seq<seq<Byte>>,
    files: seq<seq<Byte>>, size: nat, i: nat)
    requires Layered(parts, head, table, files) && SameSize(table, size) && i <= |table|
    ensures Start(parts, 1 + i) == EntryStart(|head|, size, i)
  {
    if i == 0 {
      StartNext(parts, 0, |head|);
    } else {
      EntriesStart(parts, head, table, files, size, i - 1);
      assert parts[1 + (i - 1)] == table[i - 1];
      StartNext(parts, i, size);
    }
  }

  /** And the files start behind the table, as they would on their own. */
  lemma {:induction false} FilesStart(parts: seq<seq<Byte>>, head: seq<Byte>, table: seq<seq<Byte>>,
    files: seq<seq<Byte>>, size: nat, i: nat)
    requires Layered(parts, head, table, files) && SameSize(table, size) && i <= |files|
    ensures Start(parts, 1 + |table| + i) == EntryStart(|head|, size, |table|) + Start(files, i)
  {
    if i == 0 {
      EntriesStart(parts, head, table, files, size, |table|);
    } else {
      FilesStart(parts, head, table, files, size, i - 1);
      assert parts[1 + |table| + (i - 1)] == files[i - 1];
      StartNext(parts, |table| + i, |files[i - 1]|);
    }
  }

  lemma SliceIsPart(parts: seq<seq<Byte>>, k: nat, at: nat, part: seq<Byte>)
    requires k < |parts| && parts[k] == part && Start(parts, k) == at
    ensures at + |part| <= |Joined(parts)| && Joined(parts)[at..at + |part|] == part
  {
    PartAt(parts, k);
  }

  function Head(x: Executable): (bytes: seq<Byte>) {
    Joined(HeaderParts(x.class_, x.endian, x.entry, |x.programs|))
  }

  /** The file header, the program headers and the programs, in file order. */
  function FileParts(x: Executable): (parts: seq<seq<Byte>>)
    ensures Layered(parts, Head(x), TableParts(x), Files(x.programs))
  {
    [Head(x)] + TableParts(x) + Files(x.programs)
  }

  function Written(x: Executable): (bytes: seq<Byte>) {
    Joined(FileParts(x))
  }

  lemma HeadWritten(x: Executable)
    requires Writable(x)
    ensures |Head(x)| == LayoutOf(x.class_).headerSize && Head(x)[..16] == IdentBytes(x.class_, x.endian)
    ensures Holds(Head(x), 0, x.endian, HeaderSpecs(LayoutOf(x.class_), x.entry, |x.programs|))
  {
    RangeValues();
    HeaderWritten(x.class_, x.endian, x.entry, |x.programs|);
  }

  lemma TableWritten(x: Executable)
    requires Writable(x)
    ensures |TableParts(x)| == |x.programs| && SameSize(TableParts(x), LayoutOf(x.class_).entrySize)
  {
    forall k | 0 <= k < |x.programs|
      ensures |TableParts(x)[k]| == LayoutOf(x.class_).entrySize
    {
      ProgramWritten(x, k);
    }
  }

  /** The bytes are a file for the executable: header, program headers and programs, each where the
  format puts it. */
  ghost predicate FileFor(bytes: seq<Byte>, x: Executable) {
    var l := LayoutOf(x.class_);
    && |bytes| == FileOffset(x, |x.programs|) && |bytes| >= 16
    && bytes[..16] == IdentBytes(x.class_, x.endian)
    && Holds(bytes, 0, x.endian, HeaderSpecs(l, x.entry, |x.programs|))
    && (forall i :: 0 <= i < |x.programs| ==> ProgramAt(bytes, x, i))
  }

  ghost predicate ProgramAt(bytes: seq<Byte>, x: Executable, i: nat)
    requires i < |x.programs|
  {
    var l, file := LayoutOf(x.class_), x.programs[i].file;
    && Holds(bytes, EntryStart(l.headerSize, l.entrySize, i), x.endian, ProgramSpecs(l, HeaderFor(x, i)))
    && FileOffset(x, i) + |file| <= |bytes|
    && bytes[FileOffset(x, i)..FileOffset(x, i) + |file|] == file
  }

  lemma ProgramAssembled(bytes: seq<Byte>, parts: seq<seq<Byte>>, head: seq<Byte>, table: seq<seq<Byte>>,
    x: Executable, i: nat)
    requires bytes == Joined(parts) && Layered(parts, head, table, Files(x.programs)) && |table| == |x.programs|
      && i < |table|
    requires |head| == LayoutOf(x.class_).headerSize && SameSize(table, LayoutOf(x.class_).entrySize)
    requires Holds(table[i], 0, x.endian, ProgramSpecs(LayoutOf(x.class_), HeaderFor(x, i)))
    ensures ProgramAt(bytes, x, i)
  {
    var l, files := LayoutOf(x.class_), Files(x.programs);
    var at := EntryStart(l.headerSize, l.entrySize, i);
    EntriesStart(parts, head, table, files, l.entrySize, i);
    SliceIsPart(parts, 1 + i, at, table[i]);
    HoldsWithin(bytes, at, table[i], x.endian, ProgramSpecs(l, HeaderFor(x, i)));
    FilesStart(parts, head, table, files, l.entrySize, i);
    SliceIsPart(parts, 1 + |table| + i, FileOffset(x, i), files[i]);
  }

  lemma HeadAssembled(bytes: seq<Byte>, parts: seq<seq<Byte>>, head: seq<Byte>, e: Endian, specs: seq<Spec>)
    requires bytes == Joined(parts) && parts != [] && parts[0] == head && |head| >= 16 && Holds(head, 0, e, specs)
    ensures |bytes| >= 16 && bytes[..16] == head[..16] && Holds(bytes, 0, e, specs)
  {
    SliceIsPart(parts, 0, 0, head);
    HoldsWithin(bytes, 0, head, e, specs);
    assert bytes[..16] == bytes[0..|head|][..16];
  }

  lemma Assembled(bytes: seq<Byte>, parts: seq<seq<Byte>>, head: seq<Byte>, table: seq<seq<Byte>>, x: Executable)
    requires bytes == Joined(parts) && Layered(parts, head, table, Files(x.programs)) && |table| == |x.programs|
    requires |head| == LayoutOf(x.class_).headerSize && head[..16] == IdentBytes(x.class_, x.endian)
    requires Holds(head, 0, x.endian, HeaderSpecs(LayoutOf(x.class_), x.entry, |x.programs|))
    requires SameSize(table, LayoutOf(x.class_).entrySize)
    requires forall i :: 0 <= i < |table| ==>
      Holds(table[i], 0, x.endian, ProgramSpecs(LayoutOf(x.class_), HeaderFor(x, i)))
    ensures FileFor(bytes, x)
  {
    HeadAssembled(bytes, parts, head, x.endian, HeaderSpecs(LayoutOf(x.class_), x.entry, |x.programs|));
    JoinedLength(parts);
    FilesStart(parts, head, table, Files(x.programs), LayoutOf(x.class_).entrySize, |x.programs|);
    forall i | 0 <= i < |x.programs|
      ensures ProgramAt(bytes, x, i)
    {
      ProgramAssembled(bytes, parts, head, table, x, i);
    }
  }

  lemma WrittenIsFile(x: Executable)
    requires Writable(x)
    ensures FileFor(Written(x), x) && |Written(x)| <= ISIZE_MAX
  {
    HeadWritten(x);
    TableWritten(x);
    forall i | 0 <= i < |x.programs|
      ensures Holds(TableParts(x)[i], 0, x.endian, ProgramSpecs(LayoutOf(x.class_), HeaderFor(x, i)))
    {
      ProgramWritten(x, i);
    }
    Assembled(Written(x), FileParts(x), Head(x), TableParts(x), x);
  }

  // ----- the round trip

  /** The segments the executable should become. */
  function Segments(x: Executable): (segments: seq<Segment>)
    requires Writable(x)
  {
    seq(|x.programs|, i requires 0 <= i < |x.programs| =>
      Segment(x.programs[i].physical, ProgramMemory(x.programs[i])))
  }

  /** A program in memory: its bytes, then zeros. */
  function ProgramMemory(p: Program): (data: seq<Byte>) {
    if |p.file| <= p.memorySize then SegmentData(p.file, p.memorySize) else []
  }

  lemma IdentReads(bytes: File, x: Executable)
    requires |bytes| >= 16 && bytes[..16] == IdentBytes(x.class_, x.endian)
    ensures DetectIdent(bytes) == Ok(Ident(x.class_, x.endian))
  {
    assert bytes[0..16] == bytes[..16];
  }

  lemma SpecReads(bytes: File, s: nat, e: Endian, specs: seq<Spec>, k: nat, at: nat)
    requires Holds(bytes, s, e, specs) && k < |specs| && at == s + specs[k].at
    ensures at + specs[k].width <= |bytes|
    ensures ReadField(bytes, at, specs[k].width, e) == Ok(specs[k].value)
    ensures Field(bytes, at, specs[k].width, e) == specs[k].value
  {
    assert HasSpec(bytes, s, e, specs[k]);
    ReadFieldIff(bytes, at, specs[k].width, e);
  }

  lemma TableReads(bytes: File, x: Executable, meta: Metadata)
    requires Writable(x) && FileFor(bytes, x) && !meta.sectionsFail && !meta.mappingsFail
    ensures ReadTable(bytes, LayoutOf(x.class_), x.endian, meta)
         == Ok(Table(x.entry, LayoutOf(x.class_).headerSize, |x.programs|))
  {
    var l := LayoutOf(x.class_);
    var specs := HeaderSpecs(l, x.entry, |x.programs|);
    SpecReads(bytes, 0, x.endian, specs, 0, l.entryAt);
    SpecReads(bytes, 0, x.endian, specs, 1, l.tableAt);
    SpecReads(bytes, 0, x.endian, specs, 2, l.headerSizeAt);
    SpecReads(bytes, 0, x.endian, specs, 3, l.entrySizeAt);
    SpecReads(bytes, 0, x.endian, specs, 4, l.countAt);
    EntryStartIs(l.headerSize, l.entrySize, |x.programs|);
  }

  lemma HeaderReads(bytes: File, x: Executable, t: Table, i: nat)
    requires Writable(x) && FileFor(bytes, x) && t == Table(x.entry, LayoutOf(x.class_).headerSize, |x.programs|)
      && i < t.count
    ensures TableInFile(bytes, LayoutOf(x.class_), t)
    ensures Kind(bytes, LayoutOf(x.class_), x.endian, t, i) == 1
    ensures HeaderOf(bytes, LayoutOf(x.class_), x.endian, t, i) == HeaderFor(x, i)
  {
    assert ProgramAt(bytes, x, i);
    SpecsRead(bytes, LayoutOf(x.class_), x.endian, t, i, HeaderFor(x, i));
  }

  lemma SpecsRead(bytes: File, l: Layout, e: Endian, t: Table, i: nat, h: Header)
    requires IsLayout(l) && TableInFile(bytes, l, t) && i < t.count
    requires Holds(bytes, EntryStart(t.offset, l.entrySize, i), e, ProgramSpecs(l, h))
    ensures Kind(bytes, l, e, t, i) == 1 && HeaderOf(bytes, l, e, t, i) == h
  {
    var at, specs := EntryStart(t.offset, l.entrySize, i), ProgramSpecs(l, h);
    SpecReads(bytes, at, e, specs, 0, at);
    SpecReads(bytes, at, e, specs, 1, at + l.fileOffsetAt);
    SpecReads(bytes, at, e, specs, 2, at + l.physicalAt);
    SpecReads(bytes, at, e, specs, 3, at + l.fileSizeAt);
    SpecReads(bytes, at, e, specs, 4, at + l.memorySizeAt);
  }

  lemma ProgramReads(bytes: File, x: Executable, i: nat)
    requires Writable(x) && FileFor(bytes, x) && i < |x.programs|
    ensures HeaderOk(bytes, LayoutOf(x.class_), HeaderFor(x, i)) && HeaderFor(x, i).memorySize != 0
    ensures SegmentOf(bytes, LayoutOf(x.class_), HeaderFor(x, i)) == Segments(x)[i]
  {
    assert ProgramAt(bytes, x, i);
    assert ProgramFits(LayoutOf(x.class_), x.programs[i]);
  }

  /** Header `i` adds segment `i` to what the file asks for. */
  predicate Adds(bytes: File, l: Layout, e: Endian, t: Table, i: nat, s: Segment)
    requires IsLayout(l) && TableInFile(bytes, l, t) && i < t.count
  {
    Requested(bytes, l, e, t, i + 1) == Requested(bytes, l, e, t, i) + [s]
  }

  lemma {:induction false} RequestedIs(bytes: File, l: Layout, e: Endian, t: Table, segments: seq<Segment>, n: nat)
    requires IsLayout(l) && TableInFile(bytes, l, t) && n <= |segments| == t.count
    requires forall i :: 0 <= i < t.count ==> Adds(bytes, l, e, t, i, segments[i])
    ensures Requested(bytes, l, e, t, n) == segments[..n]
  {
    if n > 0 {
      RequestedIs(bytes, l, e, t, segments, n - 1);
      assert Adds(bytes, l, e, t, n - 1, segments[n - 1]);
      PrefixNext(segments, n - 1);
    }
  }

  lemma PrefixNext(segments: seq<Segment>, i: nat)
    requires i < |segments|
    ensures segments[..i + 1] == segments[..i] + [segments[i]]
  {
  }

  lemma ProgramAdds(bytes: File, x: Executable, t: Table, i: nat)
    requires Writable(x) && FileFor(bytes, x) && t == Table(x.entry, LayoutOf(x.class_).headerSize, |x.programs|)
      && i < t.count
    requires TableInFile(bytes, LayoutOf(x.class_), t)
    ensures Adds(bytes, LayoutOf(x.class_), x.endian, t, i, Segments(x)[i])
  {
    HeaderReads(bytes, x, t, i);
    ProgramReads(bytes, x, i);
  }

  lemma HeadersRead(bytes: File, x: Executable, t: Table, meta: Metadata)
    requires Writable(x) && FileFor(bytes, x) && t == Table(x.entry, LayoutOf(x.class_).headerSize, |x.programs|)
    requires TableInFile(bytes, LayoutOf(x.class_), t)
    ensures HeadersOk(bytes, LayoutOf(x.class_), x.endian, t, meta, t.count)
  {
    forall i | 0 <= i < t.count
      ensures IndexOk(bytes, LayoutOf(x.class_), x.endian, t, meta, i)
    {
      HeaderReads(bytes, x, t, i);
      ProgramReads(bytes, x, i);
    }
  }

  /** Whatever bytes are a file for the executable, the parser makes of them the executable's own
  image, and refuses them only for the executable's sake. */
  lemma ParseOfFile(bytes: File, x: Executable, meta: Metadata)
    requires Writable(x) && FileFor(bytes, x) && !meta.sectionsFail && !meta.mappingsFail
    ensures Parse(bytes, meta).Ok? <==> x.programs != [] && AddAll(Segments(x)).Ok?
    ensures Parse(bytes, meta).Ok? ==> Parse(bytes, meta).value == Boot(x.entry, AddAll(Segments(x)).value)
  {
    IdentReads(bytes, x);
    TableReads(bytes, x, meta);
    var t := TableOf(bytes, meta);
    HeadersRead(bytes, x, t, meta);
    forall i | 0 <= i < t.count
      ensures Adds(bytes, LayoutOf(x.class_), x.endian, t, i, Segments(x)[i])
    {
      ProgramAdds(bytes, x, t, i);
    }
    RequestedIs(bytes, LayoutOf(x.class_), x.endian, t, Segments(x), t.count);
    assert Segments(x)[..|x.programs|] == Segments(x);
    ParseIs(bytes, meta);
  }

  /** The round trip: a written executable parses to its own entry and segments, exactly when it has
  programs and they do not overlap. */
  lemma RoundTrip(x: Executable, meta: Metadata) returns (bytes: File)
    requires Writable(x) && !meta.sectionsFail && !meta.mappingsFail
    ensures bytes == Written(x)
    ensures Parse(bytes, meta).Ok? <==> x.programs != [] && Compatible(multiset(Segments(x)))
    ensures Parse(bytes, meta).Ok? ==>
      AddAll(Segments(x)).Ok? && Parse(bytes, meta) == Ok(Boot(x.entry, AddAll(Segments(x)).value))
  {
    WrittenIsFile(x);
    bytes := Written(x);
    ParseOfFile(bytes, x, meta);
    AddAllAccepts(Segments(x));
  }

  /** A written file with one program is always accepted, and is that program. */
  lemma OneProgramBoots(x: Executable, meta: Metadata) returns (bytes: File)
    requires Writable(x) && |x.programs| == 1 && !meta.sectionsFail && !meta.mappingsFail
    ensures bytes == Written(x)
    ensures Parse(bytes, meta) == Ok(Boot(x.entry, [Segment(x.programs[0].physical, ProgramMemory(x.programs[0]))]))
  {
    bytes := RoundTrip(x, meta);
    var s := Segment(x.programs[0].physical, ProgramMemory(x.programs[0]));
    assert ProgramFits(LayoutOf(x.class_), x.programs[0]);
    assert Segments(x) == [s];
    OneSegment(s);
  }

  lemma OneSegment(s: Segment)
    requires Loadable(s)
    ensures Compatible(multiset([s])) && AddAll([s]) == Ok([s])
  {
    var none: seq<Segment> := [];
    assert [s][..0] == none && none + [s] == [s];
    assert AddAll(none) == Ok(none);
    AddAllAccepts([s]);
  }

  /** What a program puts at an address: its byte there, or zero past its bytes. */
  function ProgramByte(p: Program, a: nat): (value: Byte)
    requires p.physical <= a
  {
    if a - p.physical < |p.file| then p.file[a - p.physical] else 0
  }

  /** From executable to memory: written, parsed and loaded into an empty store of any line size,
  every program's bytes are at their addresses, followed by zeros. */
  lemma WrittenLoads(x: Executable, meta: Metadata, lineBytes: nat, i: nat, a: nat) returns (bytes: File)
    requires Writable(x) && !meta.sectionsFail && !meta.mappingsFail && ValidLayout(lineBytes)
    requires Compatible(multiset(Segments(x))) && i < |x.programs|
    requires x.programs[i].physical <= a < x.programs[i].physical + x.programs[i].memorySize && a < TopLine(lineBytes)
    ensures bytes == Written(x) && Parse(bytes, meta).Ok?
    ensures ByteAt(LoadImage(map[], lineBytes, Parse(bytes, meta).value.segments).lines, lineBytes, a)
      == ProgramByte(x.programs[i], a)
  {
    bytes := RoundTrip(x, meta);
    assert ProgramFits(LayoutOf(x.class_), x.programs[i]);
    ProgramLoaded(Segments(x), AddAll(Segments(x)).value, lineBytes, i, x.programs[i], a);
  }

  lemma ProgramLoaded(list: seq<Segment>, segments: seq<Segment>, lineBytes: nat, i: nat, p: Program, a: nat)
    requires ValidLayout(lineBytes) && AddAll(list) == Ok(segments) && |p.file| <= p.memorySize
    requires i < |list| && list[i] == Segment(p.physical, ProgramMemory(p))
    requires p.physical <= a < p.physical + p.memorySize && a < TopLine(lineBytes)
    ensures ByteAt(LoadImage(map[], lineBytes, segments).lines, lineBytes, a) == ProgramByte(p, a)
  {
    SegmentsLoaded(list, map[], lineBytes, list[i], a);
  }
}
