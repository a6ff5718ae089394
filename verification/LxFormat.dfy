/**
 * The LX structures and the readers of single entries (src/lx/header.rs).
 *
 * A reader is a function of the file contents and a position.  It fails with
 * `UnexpectedEof` where `read_exact` would run past the end of the file.
 */
module LxFormat {
  import opened Bytes
  import opened Wrappers

  datatype ParseError =
    | InvalidMzSignature
    | InvalidLxSignature
    | TooManyObjects
    | TooManyPages
    | InvalidPageShift
    | InvalidEipObject
    | InvalidEspObject
    | TooManyResources
    | UnexpectedEof

  /** A value and the position behind it. */
  datatype Read<+T> = Read(value: T, next: nat)

  datatype ObjectEntry = ObjectEntry(size: u32, base: u32, flags: u32, pageMapIndex: u32, pageCount: u32, reserved: u32)

  datatype PageEntry = PageEntry(dataOffset: u32, dataSize: u16, flags: u16)

  datatype ResourceEntry = ResourceEntry(typeId: u16, nameId: u16, size: u32, objectNum: u16, offset: u32)

  datatype FixupTarget =
    | Internal(objectNum: u16, targetOffset: u32)
    | ExternalOrdinal(moduleOrdinal: u16, procOrdinal: u32)
    | ExternalName(moduleOrdinal: u16, procNameOffset: u32)
    | InternalEntry(entryOrdinal: u16)

  datatype FixupRecord = FixupRecord(
    sourceType: byte, targetFlags: byte, sourceOffsets: seq<u16>, target: FixupTarget, additive: Option<u32>)

  datatype Export = Export(ordinal: nat, objectNum: u16, offset: u32)

  const OBJECT_SIZE := 24
  const PAGE_ENTRY_SIZE := 8
  const RESOURCE_SIZE := 14
  const HEADER_SIZE := 172

  /** The LX header, kept as its 172 bytes; the accessors give the fields the loader uses. */
  datatype LxHeader = LxHeader(raw: seq<byte>) {
    predicate Valid() { |raw| == HEADER_SIZE }
    function ModuleNumPages(): u32 requires Valid() { Get32(raw, 0x14) }
    function EipObject(): u32 requires Valid() { Get32(raw, 0x18) }
    function Eip(): u32 requires Valid() { Get32(raw, 0x1C) }
    function EspObject(): u32 requires Valid() { Get32(raw, 0x20) }
    function PageOffsetShift(): u32 requires Valid() { Get32(raw, 0x2C) }
    function LoaderSectionSize(): u32 requires Valid() { Get32(raw, 0x38) }
    function ObjectTableOffset(): u32 requires Valid() { Get32(raw, 0x40) }
    function ObjectCount(): u32 requires Valid() { Get32(raw, 0x44) }
    function ObjectPageMapOffset(): u32 requires Valid() { Get32(raw, 0x48) }
    function ResourceTableOffset(): u32 requires Valid() { Get32(raw, 0x50) }
    function ResourceCount(): u32 requires Valid() { Get32(raw, 0x54) }
    function EntryTableOffset(): u32 requires Valid() { Get32(raw, 0x5C) }
    function FixupPageTableOffset(): u32 requires Valid() { Get32(raw, 0x68) }
    function FixupRecordTableOffset(): u32 requires Valid() { Get32(raw, 0x6C) }
    function ImportModulesOffset(): u32 requires Valid() { Get32(raw, 0x70) }
    function ImportModulesCount(): u32 requires Valid() { Get32(raw, 0x74) }
    function ImportProcNamesOffset(): u32 requires Valid() { Get32(raw, 0x78) }
    function DataPagesOffset(): u32 requires Valid() { Get32(raw, 0x80) }
    function NonResidentOffset(): u32 requires Valid() { Get32(raw, 0x88) }
    function NonResidentLength(): u32 requires Valid() { Get32(raw, 0x8C) }
  }

  datatype LxFile = LxFile(
    header: LxHeader,
    objectTable: seq<ObjectEntry>,
    pageMap: seq<PageEntry>,
    fixupPageTable: seq<u32>,
    fixupsByPage: seq<seq<FixupRecord>>,
    resources: seq<ResourceEntry>,
    importedModules: seq<string>,
    importProcNames: seq<byte>,
    exports: seq<Export>,
    nonResidentNames: seq<(u16, string)>)
  {
    /** `LxFile::get_proc_name`: a length-prefixed name inside the procedure name table. */
    function GetProcName(offset: nat): Option<string> {
      if offset >= |importProcNames| then None
      else
        var len := importProcNames[offset];
        if offset + 1 + len > |importProcNames| then None
        else Some(Chars(importProcNames[offset + 1..offset + 1 + len]))
    }
  }

  /** Name bytes as text; exact for ASCII, which is all the linker writes. */
  function Chars(bs: seq<byte>): (s: string)
    ensures |s| == |bs|
  {
    seq(|bs|, i requires 0 <= i < |bs| => bs[i] as char)
  }

  // ----- plain reads -----

  function Byte(f: seq<byte>, pos: nat): Result<Read<byte>, ParseError> {
    if pos + 1 <= |f| then Ok(Read(f[pos], pos + 1)) else Err(UnexpectedEof)
  }

  function Half(f: seq<byte>, pos: nat): Result<Read<u16>, ParseError> {
    if pos + 2 <= |f| then Ok(Read(Get16(f, pos), pos + 2)) else Err(UnexpectedEof)
  }

  function Word(f: seq<byte>, pos: nat): Result<Read<u32>, ParseError> {
    if pos + 4 <= |f| then Ok(Read(Get32(f, pos), pos + 4)) else Err(UnexpectedEof)
  }

  /** A one- or two-byte index, as bit 0x40 of the target flags says. */
  function Index(f: seq<byte>, pos: nat, wide: bool): Result<Read<u16>, ParseError> {
    if wide then Half(f, pos)
    else
      var b :- Byte(f, pos);
      Ok(Read(b.value as u16, b.next))
  }

  /** A two- or four-byte offset, as bit 0x10 of the target flags says. */
  function Offset(f: seq<byte>, pos: nat, wide: bool): Result<Read<u32>, ParseError> {
    if wide then Word(f, pos)
    else
      var h :- Half(f, pos);
      Ok(Read(h.value as u32, h.next))
  }

  // ----- table entries -----

  function ObjectAt(f: seq<byte>, pos: nat): ObjectEntry
    requires pos + OBJECT_SIZE <= |f|
  {
    ObjectEntry(Get32(f, pos), Get32(f, pos + 4), Get32(f, pos + 8), Get32(f, pos + 12), Get32(f, pos + 16), Get32(f, pos + 20))
  }

  function PageAt(f: seq<byte>, pos: nat): PageEntry
    requires pos + PAGE_ENTRY_SIZE <= |f|
  {
    PageEntry(Get32(f, pos), Get16(f, pos + 4), Get16(f, pos + 6))
  }

  function ResourceAt(f: seq<byte>, pos: nat): ResourceEntry
    requires pos + RESOURCE_SIZE <= |f|
  {
    ResourceEntry(Get16(f, pos), Get16(f, pos + 2), Get32(f, pos + 4), Get16(f, pos + 8), Get32(f, pos + 10))
  }

  // ----- fixup records -----

  predicate Bit(b: byte, weight: int)
    requires weight > 0
  {
    b / weight % 2 == 1
  }

  /** `count` source offsets, for records with bit 0x20 of the source type set. */
  function ReadOffsets(f: seq<byte>, pos: nat, count: nat): Result<Read<seq<u16>>, ParseError>
    decreases count
  {
    if count == 0 then Ok(Read([], pos))
    else
      var h :- Half(f, pos);
      var rest :- ReadOffsets(f, h.next, count - 1);
      Ok(Read([h.value] + rest.value, rest.next))
  }

  function ReadSources(f: seq<byte>, pos: nat, sourceType: byte): Result<Read<seq<u16>>, ParseError> {
    if Bit(sourceType, 0x20) then
      var count :- Byte(f, pos);
      ReadOffsets(f, count.next, count.value)
    else
      var h :- Half(f, pos);
      Ok(Read([h.value], h.next))
  }

  function ReadTarget(f: seq<byte>, pos: nat, flags: byte): Result<Read<FixupTarget>, ParseError> {
    var index :- Index(f, pos, Bit(flags, 0x40));
    var wide := Bit(flags, 0x10);
    if flags % 4 == 0 then
      var o :- Offset(f, index.next, wide);
      Ok(Read(Internal(index.value, o.value), o.next))
    else if flags % 4 == 1 then
      if Bit(flags, 0x80) then
        var b :- Byte(f, index.next);
        Ok(Read(ExternalOrdinal(index.value, b.value as u32), b.next))
      else
        var o :- Offset(f, index.next, wide);
        Ok(Read(ExternalOrdinal(index.value, o.value), o.next))
    else if flags % 4 == 2 then
      var o :- Offset(f, index.next, wide);
      Ok(Read(ExternalName(index.value, o.value), o.next))
    else
      Ok(Read(InternalEntry(index.value), index.next))
  }

  function ReadAdditive(f: seq<byte>, pos: nat, flags: byte): Result<Read<Option<u32>>, ParseError> {
    if Bit(flags, 0x04) then
      var o :- Offset(f, pos, Bit(flags, 0x20));
      Ok(Read(Some(o.value), o.next))
    else
      Ok(Read(None, pos))
  }

  /** `LxFixupRecord::read`. */
  function ReadFixup(f: seq<byte>, pos: nat): (r: Result<Read<FixupRecord>, ParseError>)
    ensures r.Ok? ==> pos < r.value.next <= |f|
  {
    var ty :- Byte(f, pos);
    var flags :- Byte(f, ty.next);
    var sources :- ReadSources(f, flags.next, ty.value);
    var target :- ReadTarget(f, sources.next, flags.value);
    var additive :- ReadAdditive(f, target.next, flags.value);
    OffsetsAdvance(f, flags.next, ty.value);
    Ok(Read(FixupRecord(ty.value, flags.value, sources.value, target.value, additive.value), additive.next))
  }

  lemma OffsetsStay(f: seq<byte>, pos: nat, count: nat)
    ensures var r := ReadOffsets(f, pos, count); r.Ok? ==> pos <= r.value.next
    decreases count
  {
    if count > 0 && Half(f, pos).Ok? {
      OffsetsStay(f, pos + 2, count - 1);
    }
  }

  lemma OffsetsAdvance(f: seq<byte>, pos: nat, sourceType: byte)
    ensures var r := ReadSources(f, pos, sourceType); r.Ok? ==> pos < r.value.next
  {
    if Bit(sourceType, 0x20) && Byte(f, pos).Ok? {
      OffsetsStay(f, pos + 1, f[pos]);
    }
  }
}
