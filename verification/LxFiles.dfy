/**
 * Every kind of fixup record, the header, and whole files: a file that holds the encoding of
 * some contents at the places its header names parses to those contents (src/lx.rs:37-260).
 */
module LxFiles {
  import opened Bytes
  import opened Wrappers
  import opened LxFormat
  import opened LxRoundTrip
  import opened LxEncoding
  import P = LxParser
  import W = LxWriter

  // ----- fixup records -----

  predicate Flag(b: byte, weight: int)
    requires weight > 0
  {
    b / weight % 2 == 1
  }

  /** Numbers are stored wide or narrow, as a flag says. */
  function Narrow(v: nat, wide: bool): (s: seq<byte>)
    requires v < if wide then TWO16 else 0x100
    ensures |s| == if wide then 2 else 1
  {
    if wide then U16(v) else [v]
  }

  function Offset32(v: nat, wide: bool): (s: seq<byte>)
    requires v < if wide then TWO32 else TWO16
    ensures |s| == if wide then 4 else 2
  {
    if wide then U32(v) else U16(v)
  }

  function EncodeOffsets(offsets: seq<u16>): (s: seq<byte>)
    ensures |s| == 2 * |offsets|
  {
    if offsets == [] then [] else U16(offsets[0]) + EncodeOffsets(offsets[1..])
  }

  /** A list of sources has its length before it; a single source has not. */
  predicate SourcesFit(r: FixupRecord) {
    if Flag(r.sourceType, 0x20) then |r.sourceOffsets| < 0x100 else |r.sourceOffsets| == 1
  }

  function EncodeSources(r: FixupRecord): seq<byte>
    requires SourcesFit(r)
  {
    if Flag(r.sourceType, 0x20) then [|r.sourceOffsets|] + EncodeOffsets(r.sourceOffsets) else U16(r.sourceOffsets[0])
  }

  /** The target is of the kind that the two low bits name, and its numbers fit their widths. */
  predicate TargetFits(r: FixupRecord) {
    var index, offset := if Flag(r.targetFlags, 0x40) then TWO16 else 0x100, if Flag(r.targetFlags, 0x10) then TWO32 else TWO16;
    match r.target
    case Internal(obj, o) => r.targetFlags % 4 == 0 && obj < index && o < offset
    case ExternalOrdinal(m, o) =>
      r.targetFlags % 4 == 1 && m < index && o < (if Flag(r.targetFlags, 0x80) then 0x100 else offset)
    case ExternalName(m, o) => r.targetFlags % 4 == 2 && m < index && o < offset
    case InternalEntry(e) => r.targetFlags % 4 == 3 && e < index
  }

  function OrdinalBytes(o: nat, byteOnly: bool, long: bool): seq<byte>
    requires o < (if byteOnly then 0x100 else if long then TWO32 else TWO16)
  {
    if byteOnly then [o] else Offset32(o, long)
  }

  function EncodeTarget(r: FixupRecord): seq<byte>
    requires TargetFits(r)
  {
    var wide, long := Flag(r.targetFlags, 0x40), Flag(r.targetFlags, 0x10);
    match r.target
    case Internal(obj, o) => Narrow(obj, wide) + Offset32(o, long)
    case ExternalOrdinal(m, o) => Narrow(m, wide) + OrdinalBytes(o, Flag(r.targetFlags, 0x80), long)
    case ExternalName(m, o) => Narrow(m, wide) + Offset32(o, long)
    case InternalEntry(e) => Narrow(e, wide)
  }

  predicate AdditiveFits(r: FixupRecord) {
    if Flag(r.targetFlags, 0x04) then
      r.additive.Some? && r.additive.value < (if Flag(r.targetFlags, 0x20) then TWO32 else TWO16)
    else r.additive.None?
  }

  function EncodeAdditive(r: FixupRecord): seq<byte>
    requires AdditiveFits(r)
  {
    if Flag(r.targetFlags, 0x04) then Offset32(r.additive.value, Flag(r.targetFlags, 0x20)) else []
  }

  predicate RecordFits(r: FixupRecord) {
    SourcesFit(r) && TargetFits(r) && AdditiveFits(r)
  }

  function EncodeRecord(r: FixupRecord): (s: seq<byte>)
    requires RecordFits(r)
    ensures |s| >= 2
  {
    [r.sourceType, r.targetFlags] + (EncodeSources(r) + (EncodeTarget(r) + EncodeAdditive(r)))
  }

  lemma ReadsNarrow(f: seq<byte>, pos: nat, v: nat, wide: bool)
    requires v < (if wide then TWO16 else 0x100) && Lies(f, pos, Narrow(v, wide))
    ensures Index(f, pos, wide) == Ok(Read(v, pos + |Narrow(v, wide)|))
  {
    hide Get16, U16;
    if wide {
      LiesU16At(f, pos, v);
    } else {
      LiesFirst(f, pos, [v]);
    }
  }

  lemma ReadsOffset32(f: seq<byte>, pos: nat, v: nat, wide: bool)
    requires v < (if wide then TWO32 else TWO16) && Lies(f, pos, Offset32(v, wide))
    ensures Offset(f, pos, wide) == Ok(Read(v, pos + |Offset32(v, wide)|))
  {
    hide Get16, U16, Get32, U32;
    if wide {
      LiesU32At(f, pos, v);
    } else {
      LiesU16At(f, pos, v);
    }
  }

  lemma {:induction false} ReadsOffsets(f: seq<byte>, pos: nat, offsets: seq<u16>)
    requires Lies(f, pos, EncodeOffsets(offsets))
    ensures ReadOffsets(f, pos, |offsets|) == Ok(Read(offsets, pos + 2 * |offsets|))
    decreases |offsets|
  {
    hide Get16, U16;
    if offsets != [] {
      TakeU16(f, pos, offsets[0], EncodeOffsets(offsets[1..]));
      ReadsOffsets(f, pos + 2, offsets[1..]);
      assert [offsets[0]] + offsets[1..] == offsets;
    }
  }

  lemma OffsetsLength(offsets: seq<u16>)
    ensures |EncodeOffsets(offsets)| == 2 * |offsets|
  {
  }

  lemma ReadsSourcesOf(f: seq<byte>, pos: nat, r: FixupRecord)
    requires SourcesFit(r) && Lies(f, pos, EncodeSources(r))
    ensures ReadSources(f, pos, r.sourceType) == Ok(Read(r.sourceOffsets, pos + |EncodeSources(r)|))
  {
    hide Get16, U16, Lies, EncodeOffsets, ReadOffsets;
    if Flag(r.sourceType, 0x20) {
      OffsetsLength(r.sourceOffsets);
      LiesSplit(f, pos, [|r.sourceOffsets|], EncodeOffsets(r.sourceOffsets));
      LiesFirst(f, pos, [|r.sourceOffsets|]);
      ReadsOffsets(f, pos + 1, r.sourceOffsets);
    } else {
      LiesU16At(f, pos, r.sourceOffsets[0]);
      assert r.sourceOffsets == [r.sourceOffsets[0]];
    }
  }

  lemma ReadsOrdinal(f: seq<byte>, pos: nat, o: nat, byteOnly: bool, long: bool)
    requires o < (if byteOnly then 0x100 else if long then TWO32 else TWO16) && Lies(f, pos, OrdinalBytes(o, byteOnly, long))
    ensures var end := pos + |OrdinalBytes(o, byteOnly, long)|;
            if byteOnly then Byte(f, pos) == Ok(Read(o, end)) else Offset(f, pos, long) == Ok(Read(o, end))
  {
    hide Offset, Offset32;
    if byteOnly {
      LiesFirst(f, pos, [o]);
    } else {
      ReadsOffset32(f, pos, o, long);
    }
  }

  lemma ReadsTargetOf(f: seq<byte>, pos: nat, r: FixupRecord)
    requires TargetFits(r) && Lies(f, pos, EncodeTarget(r))
    ensures ReadTarget(f, pos, r.targetFlags) == Ok(Read(r.target, pos + |EncodeTarget(r)|))
  {
    hide Index, Offset, Narrow, Offset32, OrdinalBytes, Lies;
    var wide, long := Flag(r.targetFlags, 0x40), Flag(r.targetFlags, 0x10);
    match r.target {
      case Internal(obj, o) =>
        ReadsNarrowThen(f, pos, obj, wide, Offset32(o, long));
        ReadsOffset32(f, pos + |Narrow(obj, wide)|, o, long);
      case ExternalOrdinal(m, o) =>
        ReadsNarrowThen(f, pos, m, wide, OrdinalBytes(o, Flag(r.targetFlags, 0x80), long));
        ReadsOrdinal(f, pos + |Narrow(m, wide)|, o, Flag(r.targetFlags, 0x80), long);
      case ExternalName(m, o) =>
        ReadsNarrowThen(f, pos, m, wide, Offset32(o, long));
        ReadsOffset32(f, pos + |Narrow(m, wide)|, o, long);
      case InternalEntry(e) =>
        ReadsNarrow(f, pos, e, wide);
    }
  }

  lemma ReadsNarrowThen(f: seq<byte>, pos: nat, v: nat, wide: bool, rest: seq<byte>)
    requires v < (if wide then TWO16 else 0x100) && Lies(f, pos, Narrow(v, wide) + rest)
    ensures Index(f, pos, wide) == Ok(Read(v, pos + |Narrow(v, wide)|)) && Lies(f, pos + |Narrow(v, wide)|, rest)
  {
    LiesSplit(f, pos, Narrow(v, wide), rest);
    ReadsNarrow(f, pos, v, wide);
  }

  lemma ReadsAdditiveOf(f: seq<byte>, pos: nat, r: FixupRecord)
    requires AdditiveFits(r) && Lies(f, pos, EncodeAdditive(r))
    ensures ReadAdditive(f, pos, r.targetFlags) == Ok(Read(r.additive, pos + |EncodeAdditive(r)|))
  {
    hide Offset, Offset32;
    if Flag(r.targetFlags, 0x04) {
      ReadsOffset32(f, pos, r.additive.value, Flag(r.targetFlags, 0x20));
    }
  }

  /** A record of any kind and any widths reads back, with its length. */
  lemma ReadsRecord(f: seq<byte>, pos: nat, r: FixupRecord)
    requires RecordFits(r) && Lies(f, pos, EncodeRecord(r))
    ensures ReadFixup(f, pos) == Ok(Read(r, pos + |EncodeRecord(r)|))
  {
    hide ReadSources, ReadTarget, ReadAdditive, EncodeSources, EncodeTarget, EncodeAdditive, SourcesFit, TargetFits, AdditiveFits;
    var head, sources, target, additive := [r.sourceType, r.targetFlags], EncodeSources(r), EncodeTarget(r), EncodeAdditive(r);
    LiesSplit(f, pos, head, sources + (target + additive));
    LiesSplit(f, pos + 2, sources, target + additive);
    LiesSplit(f, pos + 2 + |sources|, target, additive);
    LiesFirst(f, pos, head);
    assert f[pos + 1] == f[pos..pos + 2][1];
    ReadsSourcesOf(f, pos + 2, r);
    ReadsTargetOf(f, pos + 2 + |sources|, r);
    ReadsAdditiveOf(f, pos + 2 + |sources| + |target|, r);
  }

  predicate RecordsFit(rs: seq<FixupRecord>) {
    forall i :: 0 <= i < |rs| ==> RecordFits(rs[i])
  }

  function EncodeRecords(rs: seq<FixupRecord>): seq<byte>
    requires RecordsFit(rs)
  {
    if rs == [] then [] else EncodeRecord(rs[0]) + EncodeRecords(rs[1..])
  }

  lemma {:induction false} ReadsRecords(f: seq<byte>, pos: nat, rs: seq<FixupRecord>)
    requires RecordsFit(rs) && Lies(f, pos, EncodeRecords(rs))
    ensures P.PageFixups(f, pos, pos + |EncodeRecords(rs)|) == Ok(rs)
    decreases |rs|
  {
    hide ReadFixup, EncodeRecord, RecordFits;
    if rs != [] {
      var first, rest := EncodeRecord(rs[0]), EncodeRecords(rs[1..]);
      LiesSplit(f, pos, first, rest);
      ReadsRecord(f, pos, rs[0]);
      ReadsRecords(f, pos + |first|, rs[1..]);
      assert [rs[0]] + rs[1..] == rs;
    }
  }

  /** The records of page `n` lie in its part of the record area. */
  predicate PageLies(f: seq<byte>, start: nat, table: seq<u32>, fixups: seq<seq<FixupRecord>>, n: nat)
    requires n < |fixups| && n + 1 < |table|
  {
    && RecordsFit(fixups[n])
    && table[n + 1] == table[n] + |EncodeRecords(fixups[n])|
    && Lies(f, start + table[n], EncodeRecords(fixups[n]))
  }

  predicate PagesLie(f: seq<byte>, start: nat, table: seq<u32>, fixups: seq<seq<FixupRecord>>)
    requires |table| == |fixups| + 1
  {
    forall n :: 0 <= n < |fixups| ==> PageLies(f, start, table, fixups, n)
  }

  lemma {:induction false} ReadsFixupPages(f: seq<byte>, start: nat, table: seq<u32>, fixups: seq<seq<FixupRecord>>, n: nat)
    requires n <= |fixups| && |table| == |fixups| + 1 && PagesLie(f, start, table, fixups)
    ensures P.FixupsByPage(f, start, table, n) == Ok(fixups[..n])
  {
    hide P.PageFixups, EncodeRecords, Lies, RecordsFit;
    if n > 0 {
      ReadsFixupPages(f, start, table, fixups, n - 1);
      assert PageLies(f, start, table, fixups, n - 1);
      ReadsRecords(f, start + table[n - 1], fixups[n - 1]);
      assert fixups[..n] == fixups[..n - 1] + [fixups[n - 1]];
    }
  }

  // ----- the header -----

  /** All fields, in the order of the file. */
  datatype Header = Header(
    byteOrder: byte, wordOrder: byte, formatLevel: u32, cpuType: u16, osType: u16, moduleVersion: u32, moduleFlags: u32,
    numPages: u32, eipObject: u32, eip: u32, espObject: u32, esp: u32, pageSize: u32, pageOffsetShift: u32,
    fixupSectionSize: u32, fixupSectionChecksum: u32, loaderSectionSize: u32, loaderSectionChecksum: u32,
    objectTable: u32, objectCount: u32, objectPageMap: u32, objectIterDataMap: u32, resourceTable: u32, resourceCount: u32,
    residentNameTable: u32, entryTable: u32, moduleDirectives: u32, moduleDirectivesCount: u32,
    fixupPageTable: u32, fixupRecordTable: u32, importModules: u32, importModulesCount: u32, importProcNames: u32,
    perPageChecksum: u32, dataPages: u32, numPreloadPages: u32, nonResidentTable: u32, nonResidentLength: u32,
    nonResidentChecksum: u32, autoDsObject: u32, debugInfo: u32, debugInfoLength: u32, instancePreload: u32,
    instanceDemand: u32, heapSize: u32)
  {
    function Start(): (s: seq<byte>)
      ensures |s| == 12
    {
      [0x4C, 0x58, byteOrder, wordOrder] + U32(formatLevel) + U16(cpuType) + U16(osType)
    }

    function ModuleFields(): (ws: seq<u32>)
      ensures |ws| == 13
    {
      [ moduleVersion, moduleFlags, numPages, eipObject, eip, espObject, esp, pageSize, pageOffsetShift,
        fixupSectionSize, fixupSectionChecksum, loaderSectionSize, loaderSectionChecksum ]
    }

    function TableFields(): (ws: seq<u32>)
      ensures |ws| == 15
    {
      [ objectTable, objectCount, objectPageMap, objectIterDataMap, resourceTable, resourceCount,
        residentNameTable, entryTable, moduleDirectives, moduleDirectivesCount,
        fixupPageTable, fixupRecordTable, importModules, importModulesCount, importProcNames ]
    }

    function DataFields(): (ws: seq<u32>)
      ensures |ws| == 12
    {
      [ perPageChecksum, dataPages, numPreloadPages, nonResidentTable, nonResidentLength, nonResidentChecksum,
        autoDsObject, debugInfo, debugInfoLength, instancePreload, instanceDemand, heapSize ]
    }

    function Fields(): (ws: seq<u32>)
      ensures |ws| == 40
    {
      ModuleFields() + TableFields() + DataFields()
    }

    function Encode(): (s: seq<byte>)
      ensures |s| == HEADER_SIZE
    {
      Start() + Words(Fields())
    }
  }

  predicate FieldsRead(h: LxHeader, hd: Header)
    requires h.Valid()
  {
    && h.ModuleNumPages() == hd.numPages && h.EipObject() == hd.eipObject && h.Eip() == hd.eip && h.EspObject() == hd.espObject
    && h.PageOffsetShift() == hd.pageOffsetShift && h.LoaderSectionSize() == hd.loaderSectionSize
    && h.ObjectTableOffset() == hd.objectTable && h.ObjectCount() == hd.objectCount && h.ObjectPageMapOffset() == hd.objectPageMap
    && h.ResourceTableOffset() == hd.resourceTable && h.ResourceCount() == hd.resourceCount
    && h.EntryTableOffset() == hd.entryTable && h.FixupPageTableOffset() == hd.fixupPageTable
    && h.FixupRecordTableOffset() == hd.fixupRecordTable && h.ImportModulesOffset() == hd.importModules
    && h.ImportModulesCount() == hd.importModulesCount && h.ImportProcNamesOffset() == hd.importProcNames
    && h.DataPagesOffset() == hd.dataPages && h.NonResidentOffset() == hd.nonResidentTable
    && h.NonResidentLength() == hd.nonResidentLength
  }

  /** Every field the loader uses is read from its place. */
  lemma HeaderFieldsAre(hd: Header)
    ensures FieldsRead(LxHeader(hd.Encode()), hd)
  {
    hide Get32, Words, Header.Start, FieldsRead, Header.Fields;
    var raw, ws := hd.Encode(), hd.Fields();
    assert raw[12..12 + |Words(ws)|] == Words(ws);
    forall i | 0 <= i < 40
      ensures FieldAt(raw, ws, i)
    {
      LiesWords(raw, 12, ws, i);
    }
    FieldsAtOffsets(raw, hd);
  }

  /** Field `i` behind the first twelve bytes. */
  predicate FieldAt(raw: seq<byte>, ws: seq<u32>, i: nat) {
    i < |ws| && 12 + 4 * i + 4 <= |raw| && Get32(raw, 12 + 4 * i) == ws[i]
  }

  lemma FieldsAtOffsets(raw: seq<byte>, hd: Header)
    requires |raw| == HEADER_SIZE && forall i :: 0 <= i < 40 ==> FieldAt(raw, hd.Fields(), i)
    ensures FieldsRead(LxHeader(raw), hd)
  {
    hide Get32, Header.Fields;
    var ws := hd.Fields();
    ModuleFieldsAre(hd);
    TableFieldsAre(hd);
    DataFieldsAre(hd);
    assert FieldAt(raw, ws, 2) && FieldAt(raw, ws, 3) && FieldAt(raw, ws, 4) && FieldAt(raw, ws, 5) && FieldAt(raw, ws, 8);
    assert FieldAt(raw, ws, 11) && FieldAt(raw, ws, 13) && FieldAt(raw, ws, 14) && FieldAt(raw, ws, 15) && FieldAt(raw, ws, 17);
    assert FieldAt(raw, ws, 18) && FieldAt(raw, ws, 20) && FieldAt(raw, ws, 23) && FieldAt(raw, ws, 24) && FieldAt(raw, ws, 25);
    assert FieldAt(raw, ws, 26) && FieldAt(raw, ws, 27) && FieldAt(raw, ws, 29) && FieldAt(raw, ws, 31) && FieldAt(raw, ws, 32);
  }

  lemma ModuleFieldsAre(hd: Header)
    ensures var ws := hd.Fields();
            && ws[2] == hd.numPages && ws[3] == hd.eipObject && ws[4] == hd.eip && ws[5] == hd.espObject
            && ws[8] == hd.pageOffsetShift && ws[11] == hd.loaderSectionSize
  {
    hide Header.TableFields, Header.DataFields;
    var ws := hd.ModuleFields();
    assert ws[2] == hd.numPages && ws[3] == hd.eipObject && ws[4] == hd.eip && ws[5] == hd.espObject;
  }

  lemma TableFieldsAre(hd: Header)
    ensures var ws := hd.Fields();
            && ws[13] == hd.objectTable && ws[14] == hd.objectCount && ws[15] == hd.objectPageMap
            && ws[17] == hd.resourceTable && ws[18] == hd.resourceCount && ws[20] == hd.entryTable
            && ws[23] == hd.fixupPageTable && ws[24] == hd.fixupRecordTable && ws[25] == hd.importModules
            && ws[26] == hd.importModulesCount && ws[27] == hd.importProcNames
  {
    hide Header.ModuleFields, Header.DataFields;
    var ws := hd.Fields();
    assert forall k :: 0 <= k < 15 ==> ws[13 + k] == hd.TableFields()[k];
    assert ws[13 + 0] == hd.objectTable && ws[13 + 1] == hd.objectCount && ws[13 + 2] == hd.objectPageMap;
    assert ws[13 + 4] == hd.resourceTable && ws[13 + 5] == hd.resourceCount && ws[13 + 7] == hd.entryTable;
    assert ws[13 + 10] == hd.fixupPageTable && ws[13 + 11] == hd.fixupRecordTable && ws[13 + 12] == hd.importModules;
    assert ws[13 + 13] == hd.importModulesCount && ws[13 + 14] == hd.importProcNames;
  }

  lemma DataFieldsAre(hd: Header)
    ensures hd.Fields()[29] == hd.dataPages && hd.Fields()[31] == hd.nonResidentTable && hd.Fields()[32] == hd.nonResidentLength
  {
    hide Header.ModuleFields, Header.TableFields;
    var ws := hd.Fields();
    assert forall k :: 0 <= k < 12 ==> ws[28 + k] == hd.DataFields()[k];
    assert ws[28 + 1] == hd.dataPages && ws[28 + 3] == hd.nonResidentTable && ws[28 + 4] == hd.nonResidentLength;
  }

  // ----- whole files -----

  datatype Contents = Contents(
    header: Header, objects: seq<ObjectEntry>, pages: seq<PageEntry>, resources: seq<ResourceEntry>,
    table: seq<u32>, fixups: seq<seq<FixupRecord>>, modules: seq<string>, procs: seq<byte>,
    bundles: seq<Bundle>, nonResident: seq<(u16, string)>)

  /** The counts of the header are those of the tables, and within the parser's limits. */
  predicate Consistent(c: Contents) {
    && |c.objects| == c.header.objectCount <= P.MAX_OBJECTS
    && |c.pages| == |c.fixups| == c.header.numPages <= P.MAX_PAGES && |c.table| == |c.fixups| + 1
    && c.header.pageOffsetShift < 32
    && c.header.eipObject <= c.header.objectCount && c.header.espObject <= c.header.objectCount
    && c.header.resourceCount <= P.MAX_RESOURCES
    && |c.resources| == (if c.header.resourceTable == 0 then 0 else c.header.resourceCount)
    && |c.modules| == c.header.importModulesCount && PlainNames(c.modules)
    && AllBundlesValid(c.bundles) && NamesValid(c.nonResident)
  }

  predicate TablesLie(f: seq<byte>, at: nat, c: Contents)
    requires Consistent(c)
  {
    && Lies(f, at + c.header.objectTable, Join(EncodeAll(c.objects, EncodeObject)))
    && Lies(f, at + c.header.objectPageMap, Join(EncodeAll(c.pages, EncodePageEntry)))
    && (c.header.resourceTable > 0 ==> Lies(f, at + c.header.resourceTable, Join(EncodeAll(c.resources, EncodeResource))))
    && Lies(f, at + c.header.fixupPageTable, Words(c.table))
    && PagesLie(f, at + c.header.fixupRecordTable, c.table, c.fixups)
  }

  /** A table with offset zero is absent; the procedure names end where the loader section does. */
  predicate NamesLie(f: seq<byte>, at: nat, c: Contents)
    requires Consistent(c)
  {
    var h := c.header;
    && Lies(f, at + h.importModules, Join(W.EncodeNames(c.modules)))
    && (if h.importProcNames == 0 || h.loaderSectionSize <= h.importProcNames then c.procs == []
        else |c.procs| == h.loaderSectionSize - h.importProcNames && Lies(f, at + h.importProcNames, c.procs))
    && (if h.entryTable == 0 then c.bundles == [] else Lies(f, at + h.entryTable, EncodeBundles(c.bundles)))
    && (if h.nonResidentTable == 0 || h.nonResidentLength == 0 then c.nonResident == []
        else Lies(f, h.nonResidentTable, EncodeNonResident(c.nonResident)))
  }

  /** `f` holds the contents, with the header at `at`. */
  predicate HoldsContents(f: seq<byte>, at: nat, c: Contents) {
    && |f| >= P.MZ_SIZE && f[0] == 0x4D && f[1] == 0x5A && Get32(f, 0x3C) == at
    && Lies(f, at, c.header.Encode())
    && Consistent(c) && TablesLie(f, at, c) && NamesLie(f, at, c)
  }

  lemma HeaderIsFound(f: seq<byte>, at: nat, c: Contents)
    requires HoldsContents(f, at, c)
    ensures P.ReadHeader(f) == Ok(Read(LxHeader(c.header.Encode()), at))
  {
    hide TablesLie, NamesLie, Consistent, Words, Get32;
    var raw := c.header.Encode();
    assert f[at..at + HEADER_SIZE] == raw;
    assert raw[0] == 0x4C && raw[1] == 0x58;
    assert f[at] == f[at..at + HEADER_SIZE][0] && f[at + 1] == f[at..at + HEADER_SIZE][1];
  }

  lemma TablesAreRead(f: seq<byte>, at: nat, c: Contents, h: LxHeader)
    requires Consistent(c) && TablesLie(f, at, c) && h.Valid() && FieldsRead(h, c.header)
    ensures P.TablesSpec(f, h, at) == Ok(P.Tables(c.objects, c.pages, c.resources, c.table, c.fixups))
  {
    hide Join, Words, Lies, PagesLie, P.ObjectTable, P.PageMap, P.ResourceTable, P.WordTable, P.FixupsByPage, Get32;
    ReadsObjectTable(f, at + c.header.objectTable, c.objects);
    ReadsPageTable(f, at + c.header.objectPageMap, c.pages);
    if c.header.resourceTable > 0 {
      ReadsResourceTable(f, at + c.header.resourceTable, c.resources);
    }
    ReadsWords(f, at + c.header.fixupPageTable, c.table);
    ReadsFixupPages(f, at + c.header.fixupRecordTable, c.table, c.fixups, |c.fixups|);
    assert c.fixups[..|c.fixups|] == c.fixups;
  }

  lemma NamesAreRead(f: seq<byte>, at: nat, c: Contents, h: LxHeader)
    requires Consistent(c) && NamesLie(f, at, c) && h.Valid() && FieldsRead(h, c.header)
    ensures P.NamesSpec(f, h, at) == Ok(P.Names(c.modules, c.procs, Exports(c.bundles, 1), c.nonResident))
  {
    hide Join, P.ModuleNames, P.EntryTable, P.NonResident, Get32, EncodeBundles, EncodeNonResident, Exports;
    ReadsNames(f, at + c.header.importModules, c.modules, |c.modules|);
    assert c.modules[..|c.modules|] == c.modules;
    if c.header.entryTable > 0 {
      ReadsBundles(f, at + c.header.entryTable, c.bundles, 1);
    } else {
      NoExports();
    }
    if c.header.nonResidentTable > 0 && c.header.nonResidentLength > 0 {
      ReadsNonResident(f, c.header.nonResidentTable, c.nonResident);
    }
  }

  lemma NoExports()
    ensures Exports([], 1) == []
  {
  }

  /**
   * Parsing returns exactly the contents: each table from where the header says, every kind
   * of fixup, the import names, the exports of the entry bundles, names and resources.
   */
  lemma ParsesAnyFile(f: seq<byte>, at: nat, c: Contents)
    requires HoldsContents(f, at, c)
    ensures P.ParseSpec(f) == Ok(LxFile(LxHeader(c.header.Encode()), c.objects, c.pages, c.table, c.fixups, c.resources,
                                        c.modules, c.procs, Exports(c.bundles, 1), c.nonResident))
  {
    hide P.ReadHeader, P.TablesSpec, P.NamesSpec, Header.Encode, TablesLie, NamesLie, Exports;
    var h := LxHeader(c.header.Encode());
    HeaderIsFound(f, at, c);
    HeaderFieldsAre(c.header);
    HeaderIsChecked(c, h);
    TablesAreRead(f, at, c, h);
    NamesAreRead(f, at, c, h);
  }

  lemma HeaderIsChecked(c: Contents, h: LxHeader)
    requires Consistent(c) && h.Valid() && FieldsRead(h, c.header)
    ensures P.CheckHeader(h) == Ok(())
  {
    hide Get32;
  }

  // ----- what is refused -----

  /** The first limit that a header exceeds is the error; no table is looked at. */
  lemma LimitsAreChecked(f: seq<byte>, at: nat, hd: Header)
    requires |f| >= P.MZ_SIZE && f[0] == 0x4D && f[1] == 0x5A && Get32(f, 0x3C) == at && Lies(f, at, hd.Encode())
    ensures hd.objectCount > 1024 ==> P.ParseSpec(f) == Err(TooManyObjects)
    ensures hd.objectCount <= 1024 && hd.numPages > 65536 ==> P.ParseSpec(f) == Err(TooManyPages)
    ensures hd.objectCount <= 1024 && hd.numPages <= 65536 && hd.pageOffsetShift >= 32 ==> P.ParseSpec(f) == Err(InvalidPageShift)
    ensures hd.objectCount <= 1024 && hd.numPages <= 65536 && hd.pageOffsetShift < 32 && hd.eipObject > hd.objectCount ==>
              P.ParseSpec(f) == Err(InvalidEipObject)
    ensures (hd.objectCount <= 1024 && hd.numPages <= 65536 && hd.pageOffsetShift < 32 && hd.eipObject <= hd.objectCount
             && hd.espObject > hd.objectCount) ==> P.ParseSpec(f) == Err(InvalidEspObject)
  {
    hide P.TablesSpec, P.NamesSpec, FieldsRead;
    HeaderFieldsAre(hd);
    HeaderStarts(f, at, hd);
    LimitsOf(LxHeader(hd.Encode()), hd);
    hide P.ReadHeader, P.CheckHeader, Header.Encode;
  }

  lemma HeaderStarts(f: seq<byte>, at: nat, hd: Header)
    requires |f| >= P.MZ_SIZE && f[0] == 0x4D && f[1] == 0x5A && Get32(f, 0x3C) == at && Lies(f, at, hd.Encode())
    ensures P.ReadHeader(f) == Ok(Read(LxHeader(hd.Encode()), at))
  {
    hide Words, Get32;
    var raw := hd.Encode();
    assert f[at..at + HEADER_SIZE] == raw;
    assert raw[0] == 0x4C && raw[1] == 0x58;
    assert f[at] == f[at..at + HEADER_SIZE][0] && f[at + 1] == f[at..at + HEADER_SIZE][1];
  }

  lemma LimitsOf(h: LxHeader, hd: Header)
    requires h.Valid() && FieldsRead(h, hd)
    ensures P.CheckHeader(h) ==
            if hd.objectCount > 1024 then Err(TooManyObjects)
            else if hd.numPages > 65536 then Err(TooManyPages)
            else if hd.pageOffsetShift >= 32 then Err(InvalidPageShift)
            else if hd.eipObject > hd.objectCount then Err(InvalidEipObject)
            else if hd.espObject > hd.objectCount then Err(InvalidEspObject)
            else Ok(())
  {
    hide Get32;
  }

  /** The header passes its limits, and the objects and the page map can be read; but there are too many resources. */
  predicate HasTooManyResources(f: seq<byte>, at: nat, hd: Header, objects: seq<ObjectEntry>, pages: seq<PageEntry>) {
    && hd.objectCount <= 1024 && hd.numPages <= 65536 && hd.pageOffsetShift < 32
    && hd.eipObject <= hd.objectCount && hd.espObject <= hd.objectCount
    && |objects| == hd.objectCount && |pages| == hd.numPages && hd.resourceCount > 4096
    && Lies(f, at + hd.objectTable, Join(EncodeAll(objects, EncodeObject)))
    && Lies(f, at + hd.objectPageMap, Join(EncodeAll(pages, EncodePageEntry)))
  }

  lemma ResourcesAreLimited(f: seq<byte>, at: nat, hd: Header, objects: seq<ObjectEntry>, pages: seq<PageEntry>)
    requires |f| >= P.MZ_SIZE && f[0] == 0x4D && f[1] == 0x5A && Get32(f, 0x3C) == at && Lies(f, at, hd.Encode())
    requires HasTooManyResources(f, at, hd, objects, pages)
    ensures P.ParseSpec(f) == Err(TooManyResources)
  {
    hide Join, Lies, P.ObjectTable, P.PageMap, P.NamesSpec, Get32;
    var h := LxHeader(hd.Encode());
    HeaderFieldsAre(hd);
    HeaderStarts(f, at, hd);
    LimitsOf(h, hd);
    hide P.ReadHeader, P.CheckHeader, Header.Encode;
    ReadsObjectTable(f, at + hd.objectTable, objects);
    ReadsPageTable(f, at + hd.objectPageMap, pages);
  }

  /** Without the two signatures nothing is parsed. */
  lemma SignaturesAreChecked(f: seq<byte>)
    ensures |f| >= 64 && (f[0] != 0x4D || f[1] != 0x5A) ==> P.ParseSpec(f) == Err(InvalidMzSignature)
    ensures (|f| >= 64 && f[0] == 0x4D && f[1] == 0x5A && Get32(f, 0x3C) + 2 <= |f|
             && (f[Get32(f, 0x3C)] != 0x4C || f[Get32(f, 0x3C) + 1] != 0x58)) ==> P.ParseSpec(f) == Err(InvalidLxSignature)
  {
    hide P.TablesSpec, P.NamesSpec, P.CheckHeader;
  }
}
