/**
 * Parsing what the linker writes: every table, record and name comes back.
 */
module LxRoundTrip {
  import opened Bytes
  import opened Wrappers
  import opened LinkerState
  import F = LxFormat
  import P = LxParser
  import opened LxWriter

  // ----- what the parser should find -----

  function ToRecord(fx: LxFixup): F.FixupRecord {
    match fx.target
    case InternalTarget(objectNum, targetOffset) =>
      F.FixupRecord(fx.sourceType, 0x10, [fx.sourceOffset], F.Internal(objectNum, targetOffset), None)
    case OrdinalTarget(moduleIdx, ordinal) =>
      F.FixupRecord(fx.sourceType, 0x11, [fx.sourceOffset], F.ExternalOrdinal(moduleIdx, ordinal), None)
  }

  function ToRecords(fixups: seq<LxFixup>): (rs: seq<F.FixupRecord>)
    ensures |rs| == |fixups|
  {
    seq(|fixups|, i requires 0 <= i < |fixups| => ToRecord(fixups[i]))
  }

  function ToRecordPages(pages: seq<seq<LxFixup>>): (rs: seq<seq<F.FixupRecord>>)
    ensures |rs| == |pages|
  {
    seq(|pages|, i requires 0 <= i < |pages| => ToRecords(pages[i]))
  }

  function ExpectedObjects(m: Image): seq<F.ObjectEntry>
    requires m.Fits() && m.Valid()
  {
    [ F.ObjectEntry(|m.code|, CODE_OBJECT_BASE, 0x2045, 1, |m.codeFixups|, 0),
      F.ObjectEntry(|m.data| + m.bss, DATA_OBJECT_BASE, 0x2043, |m.codeFixups| + 1, |m.dataFixups|, 0),
      F.ObjectEntry(STACK_SIZE, STACK_OBJECT_BASE, 0x2043, |m.codeFixups| + |m.dataFixups| + 1, STACK_PAGES, 0) ]
  }

  /** Pages at multiples of the page size. */
  function ExpectedPages(m: Image): seq<F.PageEntry>
    requires m.Fits()
  {
    seq(m.Total(), i requires 0 <= i < m.Total() => F.PageEntry(PAGE_SIZE * i, PageSizeAt(m, i), 0))
  }

  function Expected(m: Image): F.LxFile
    requires m.Fits() && m.Valid()
  {
    F.LxFile(F.LxHeader(Words(HeaderWords(m))), ExpectedObjects(m), ExpectedPages(m), FixupPageTable(m.Pages()),
             ToRecordPages(m.Pages()), [], m.modules, [], [], [])
  }

  /** All records are 32-bit absolute fixups, the only kind the linker emits. */
  predicate AllAbsolute(pages: seq<seq<LxFixup>>) {
    forall p, i :: 0 <= p < |pages| && 0 <= i < |pages[p]| ==> pages[p][i].sourceType == 0x07
  }

  /** ASCII, and short enough for the length byte. */
  predicate PlainName(name: string) {
    |name| < 0x100 && forall i :: 0 <= i < |name| ==> name[i] as int < 0x80
  }

  predicate PlainNames(names: seq<string>) {
    forall i :: 0 <= i < |names| ==> PlainName(names[i])
  }

  // ----- reading inside a part -----

  /** `part` lies at `at` in `f`. */
  predicate Lies(f: seq<byte>, at: nat, part: seq<byte>) {
    at + |part| <= |f| && f[at..at + |part|] == part
  }

  lemma LiesWord(f: seq<byte>, at: nat, part: seq<byte>, k: nat)
    requires Lies(f, at, part) && k + 4 <= |part|
    ensures Get32(f, at + k) == Get32(part, k)
  {
    assert forall i :: 0 <= i < |part| ==> f[at + i] == part[i];
  }

  lemma LiesSub(f: seq<byte>, at: nat, whole: seq<byte>, k: nat, part: seq<byte>)
    requires Lies(f, at, whole) && Lies(whole, k, part)
    ensures Lies(f, at + k, part)
  {
    forall i | 0 <= i < |part|
      ensures f[at + k + i] == part[i]
    {
      assert f[at..at + |whole|][k + i] == whole[k + i];
      assert whole[k..k + |part|][i] == part[i];
    }
  }

  lemma LiesPart(parts: seq<seq<byte>>, i: nat)
    requires i < |parts|
    ensures Lies(Join(parts), Start(parts, i), parts[i])
  {
    JoinAt(parts, i);
  }

  lemma LiesSplit(f: seq<byte>, at: nat, x: seq<byte>, y: seq<byte>)
    requires Lies(f, at, x + y)
    ensures Lies(f, at, x) && Lies(f, at + |x|, y)
  {
    assert f[at..at + |x|] == (x + y)[..|x|];
    assert f[at + |x|..at + |x + y|] == (x + y)[|x|..];
  }

  lemma LiesU32(f: seq<byte>, at: nat, v: u32)
    requires Lies(f, at, U32(v))
    ensures Get32(f, at) == v
  {
    Get32IsU32(f, at, v);
  }

  lemma LiesU16(f: seq<byte>, at: nat, v: u16)
    requires Lies(f, at, U16(v))
    ensures Get16(f, at) == v
  {
    Get16IsU16(f, at, v);
  }

  // ----- fixup records -----

  lemma ReadsFixup(f: seq<byte>, pos: nat, fx: LxFixup)
    requires Lies(f, pos, EncodeFixup(fx)) && fx.sourceType == 0x07
    ensures F.ReadFixup(f, pos) == Ok(F.Read(ToRecord(fx), pos + 9))
  {
    var flags: byte := if fx.target.InternalTarget? then 0x10 else 0x11;
    var index: byte := if fx.target.InternalTarget? then fx.target.objectNum else fx.target.moduleIdx;
    var word: u32 := if fx.target.InternalTarget? then fx.target.targetOffset else fx.target.ordinal;
    var head := [fx.sourceType, flags];
    assert EncodeFixup(fx) == head + (U16(fx.sourceOffset) + ([index] + U32(word)));
    LiesSplit(f, pos, head, U16(fx.sourceOffset) + ([index] + U32(word)));
    LiesSplit(f, pos + 2, U16(fx.sourceOffset), [index] + U32(word));
    LiesSplit(f, pos + 4, [index], U32(word));
    LiesU16(f, pos + 2, fx.sourceOffset);
    LiesU32(f, pos + 5, word);
    assert f[pos] == f[pos..pos + 2][0] == fx.sourceType;
    assert f[pos + 1] == f[pos..pos + 2][1] == flags;
    assert f[pos + 4] == f[pos + 4..pos + 5][0] == index;
    ReadsParts(f, pos, fx.sourceOffset, flags, index, word);
  }

  lemma ReadsParts(f: seq<byte>, pos: nat, offset: u16, flags: byte, index: byte, word: u32)
    requires pos + 9 <= |f| && f[pos] == 0x07 && f[pos + 1] == flags && flags in {0x10, 0x11}
    requires Get16(f, pos + 2) == offset && f[pos + 4] == index && Get32(f, pos + 5) == word
    ensures F.ReadSources(f, pos + 2, 0x07) == Ok(F.Read([offset], pos + 4))
    ensures F.ReadTarget(f, pos + 4, flags)
         == Ok(F.Read(if flags == 0x10 then F.Internal(index, word) else F.ExternalOrdinal(index, word), pos + 9))
    ensures F.ReadAdditive(f, pos + 9, flags) == Ok(F.Read(None, pos + 9))
  {
    assert !F.Bit(0x07, 0x20);
    assert !F.Bit(flags, 0x40) && F.Bit(flags, 0x10) && !F.Bit(flags, 0x80) && !F.Bit(flags, 0x04);
  }

  /** The records of a page, from record `i` on. */
  lemma {:induction false} ReadsPage(f: seq<byte>, at: nat, fixups: seq<LxFixup>, i: nat)
    requires i <= |fixups| && Lies(f, at, EncodePage(fixups))
    requires forall k :: 0 <= k < |fixups| ==> fixups[k].sourceType == 0x07
    ensures P.PageFixups(f, at + 9 * i, at + 9 * |fixups|) == Ok(ToRecords(fixups)[i..])
    decreases |fixups| - i
  {
    hide F.ReadFixup, EncodeFixup;
    if i < |fixups| {
      var encoded := EncodeFixups(fixups);
      assert forall e :: e in encoded ==> |e| == 9;
      JoinEven(encoded, 9, i);
      LiesPart(encoded, i);
      LiesSub(f, at, EncodePage(fixups), 9 * i, EncodeFixup(fixups[i]));
      ReadsFixup(f, at + 9 * i, fixups[i]);
      ReadsPage(f, at, fixups, i + 1);
      assert ToRecords(fixups)[i..] == [ToRecord(fixups[i])] + ToRecords(fixups)[i + 1..];
    }
  }

  lemma PageLength(fixups: seq<LxFixup>)
    ensures |EncodePage(fixups)| == 9 * |fixups|
  {
    var encoded := EncodeFixups(fixups);
    JoinEven(encoded, 9, |fixups|);
    assert encoded[..|fixups|] == encoded;
  }

  lemma ReadsOnePage(f: seq<byte>, at: nat, pages: seq<seq<LxFixup>>, n: nat)
    requires n < |pages| && AllAbsolute(pages)
    requires Lies(f, at, Join(EncodePages(pages))) && |Join(EncodePages(pages))| < TWO32
    ensures var table := FixupPageTable(pages);
            P.PageFixups(f, at + table[n], at + table[n + 1]) == Ok(ToRecords(pages[n]))
  {
    hide P.PageFixups, EncodePage, Lies, Join;
    var encoded := EncodePages(pages);
    StartsGrow(encoded, n);
    StartsGrow(encoded, n + 1);
    JoinAt(encoded, n);
    PageLength(pages[n]);
    LiesPart(encoded, n);
    LiesSub(f, at, Join(encoded), Start(encoded, n), EncodePage(pages[n]));
    ReadsPage(f, at + Start(encoded, n), pages[n], 0);
    assert ToRecords(pages[n])[0..] == ToRecords(pages[n]);
  }

  lemma {:induction false} ReadsPages(f: seq<byte>, at: nat, pages: seq<seq<LxFixup>>, n: nat)
    requires n <= |pages| && AllAbsolute(pages)
    requires Lies(f, at, Join(EncodePages(pages))) && |Join(EncodePages(pages))| < TWO32
    ensures P.FixupsByPage(f, at, FixupPageTable(pages), n) == Ok(ToRecordPages(pages)[..n])
  {
    hide P.PageFixups, EncodePages, Lies, Join, ToRecords, FixupPageTable;
    assert n < |FixupPageTable(pages)|;
    if n > 0 {
      ReadsPages(f, at, pages, n - 1);
      ReadsOnePage(f, at, pages, n - 1);
      assert ToRecordPages(pages)[..n] == ToRecordPages(pages)[..n - 1] + [ToRecords(pages[n - 1])];
    }
  }

  lemma {:induction false} StartsGrow<T>(parts: seq<seq<T>>, i: nat)
    requires i <= |parts|
    ensures Start(parts, i) <= |Join(parts)|
  {
    if i < |parts| {
      JoinAt(parts, i);
    } else {
      assert parts[..i] == parts;
    }
  }

  // ----- names -----

  lemma ReadsName(f: seq<byte>, at: nat, name: string)
    requires Lies(f, at, EncodeName(name)) && PlainName(name)
    ensures P.Name(f, at) == Ok(F.Read(name, at + |EncodeName(name)|))
  {
    var bytes := seq(|name|, i requires 0 <= i < |name| => name[i] as int % 0x100);
    assert EncodeName(name) == [|name|] + bytes;
    LiesSplit(f, at, [|name|], bytes);
    assert f[at] == f[at..at + 1][0] == |name|;
    assert F.Chars(bytes) == name;
  }

  lemma {:induction false} ReadsNames(f: seq<byte>, at: nat, names: seq<string>, n: nat)
    requires n <= |names| && PlainNames(names) && Lies(f, at, Join(EncodeNames(names)))
    ensures P.ModuleNames(f, at, n) == Ok(F.Read(names[..n], at + Start(EncodeNames(names), n)))
  {
    hide P.Name, EncodeName;
    if n > 0 {
      ReadsNames(f, at, names, n - 1);
      var encoded := EncodeNames(names);
      JoinAt(encoded, n - 1);
      LiesPart(encoded, n - 1);
      LiesSub(f, at, Join(encoded), Start(encoded, n - 1), EncodeName(names[n - 1]));
      ReadsName(f, at + Start(encoded, n - 1), names[n - 1]);
      assert names[..n] == names[..n - 1] + [names[n - 1]];
    }
  }

  // ----- fixed tables -----

  lemma {:induction false} PageMapLies(m: Image, n: nat, i: nat)
    requires i < n && PAGE_SIZE * n < TWO32
    ensures |PageMapBytes(m, n)| == 8 * n && Lies(PageMapBytes(m, n), 8 * i, PageEntryBytes(i, PageSizeAt(m, i)))
  {
    hide PageEntryBytes, PageSizeAt;
    if n > 1 {
      PageMapLies(m, n - 1, if i < n - 1 then i else 0);
      if i < n - 1 {
        assert PageMapBytes(m, n)[8 * i..8 * i + 8] == PageMapBytes(m, n - 1)[8 * i..8 * i + 8];
      }
    }
  }

  lemma ReadsPageEntry(f: seq<byte>, at: nat, m: Image, i: nat)
    requires m.Fits() && Lies(f, at, PageMapBytes(m, m.Total())) && i < m.Total() && |PageMapBytes(m, m.Total())| == 8 * m.Total()
    ensures F.PageAt(f, at + 8 * i) == F.PageEntry(PAGE_SIZE * i, PageSizeAt(m, i), 0)
  {
    hide PageSizeAt, U16, U32, Get16, Get32;
    PageMapLies(m, m.Total(), i);
    LiesSub(f, at, PageMapBytes(m, m.Total()), 8 * i, PageEntryBytes(i, PageSizeAt(m, i)));
    hide PageMapBytes;
    var pos := at + 8 * i;
    var offset, size, flags := U32(PAGE_SIZE * i), U16(PageSizeAt(m, i)), U16(0);
    ConcatAssoc(offset, size, flags);
    LiesSplit(f, pos, offset, size + flags);
    LiesSplit(f, pos + 4, size, flags);
    LiesU32(f, pos, PAGE_SIZE * i);
    LiesU16(f, pos + 4, PageSizeAt(m, i));
    LiesU16(f, pos + 6, 0);
  }

  lemma ReadsPageMap(f: seq<byte>, at: nat, m: Image)
    requires m.Fits() && Lies(f, at, PageMapBytes(m, m.Total())) && |PageMapBytes(m, m.Total())| == 8 * m.Total()
    ensures P.PageMap(f, at, m.Total()) == Ok(ExpectedPages(m))
  {
    hide PageSizeAt;
    forall i | 0 <= i < m.Total()
      ensures F.PageAt(f, at + 8 * i) == F.PageEntry(PAGE_SIZE * i, PageSizeAt(m, i), 0)
    {
      ReadsPageEntry(f, at, m, i);
    }
    assert P.PageMap(f, at, m.Total()).Ok?;
    assert P.PageMap(f, at, m.Total()).value == ExpectedPages(m);
  }

  lemma LiesWords(f: seq<byte>, at: nat, ws: seq<u32>, i: nat)
    requires Lies(f, at, Words(ws)) && i < |ws|
    ensures Get32(f, at + 4 * i) == ws[i]
  {
    hide *;
    WordsAt(ws, i);
    LiesWord(f, at, Words(ws), 4 * i);
  }

  lemma LiesWithin(f: seq<byte>, at: nat, ws: seq<u32>)
    requires Lies(f, at, Words(ws))
    ensures at + 4 * |ws| <= |f|
  {
  }

  lemma ReadsWords(f: seq<byte>, at: nat, ws: seq<u32>)
    requires Lies(f, at, Words(ws))
    ensures P.WordTable(f, at, |ws|) == Ok(ws)
  {
    hide Words, Get32, Lies;
    LiesWithin(f, at, ws);
    var r := P.WordTable(f, at, |ws|).value;
    forall i | 0 <= i < |ws|
      ensures r[i] == ws[i]
    {
      LiesWords(f, at, ws, i);
    }
    assert r == ws;
  }

  lemma ReadsObject(f: seq<byte>, at: nat, ws: seq<u32>, k: nat, pos: nat)
    requires k + 6 <= |ws| && Lies(f, at, Words(ws)) && pos == at + 4 * k
    ensures pos + 24 <= |f|
    ensures F.ObjectAt(f, pos) == F.ObjectEntry(ws[k], ws[k + 1], ws[k + 2], ws[k + 3], ws[k + 4], ws[k + 5])
  {
    hide Lies, Words, Get32, U32, F.ObjectAt;
    LiesWithin(f, at, ws);
    WordBehind(f, at, ws, k, pos);
    WordBehind(f, at, ws, k + 1, pos + 4);
    WordBehind(f, at, ws, k + 2, pos + 8);
    WordBehind(f, at, ws, k + 3, pos + 12);
    WordBehind(f, at, ws, k + 4, pos + 16);
    WordBehind(f, at, ws, k + 5, pos + 20);
    ObjectFromWords(f, pos, ws[k], ws[k + 1], ws[k + 2], ws[k + 3], ws[k + 4], ws[k + 5]);
  }

  lemma WordBehind(f: seq<byte>, at: nat, ws: seq<u32>, i: nat, pos: nat)
    requires Lies(f, at, Words(ws)) && i < |ws| && pos == at + 4 * i
    ensures pos + 4 <= |f| && Get32(f, pos) == ws[i]
  {
    hide *;
    LiesWithin(f, at, ws);
    LiesWords(f, at, ws, i);
  }

  lemma ObjectFromWords(f: seq<byte>, pos: nat, size: u32, base: u32, flags: u32, index: u32, count: u32, reserved: u32)
    requires pos + 24 <= |f| && Get32(f, pos) == size && Get32(f, pos + 4) == base && Get32(f, pos + 8) == flags
    requires Get32(f, pos + 12) == index && Get32(f, pos + 16) == count && Get32(f, pos + 20) == reserved
    ensures F.ObjectAt(f, pos) == F.ObjectEntry(size, base, flags, index, count, reserved)
  {
    hide Get32;
  }

  lemma ReadsObjects(f: seq<byte>, at: nat, ws: seq<u32>)
    requires |ws| == 18 && Lies(f, at, Words(ws))
    ensures P.ObjectTable(f, at, 3) == Ok([
              F.ObjectEntry(ws[0], ws[1], ws[2], ws[3], ws[4], ws[5]),
              F.ObjectEntry(ws[6], ws[7], ws[8], ws[9], ws[10], ws[11]),
              F.ObjectEntry(ws[12], ws[13], ws[14], ws[15], ws[16], ws[17])])
  {
    hide Words, Lies, F.ObjectAt;
    ReadsObject(f, at, ws, 0, at);
    ReadsObject(f, at, ws, 6, at + 24);
    ReadsObject(f, at, ws, 12, at + 48);
    var r := P.ObjectTable(f, at, 3).value;
    assert r[0] == F.ObjectAt(f, at + 24 * 0) && r[1] == F.ObjectAt(f, at + 24 * 1) && r[2] == F.ObjectAt(f, at + 24 * 2);
    assert r == [r[0], r[1], r[2]];
  }

  lemma ObjectRows(m: Image)
    requires m.Fits() && m.Valid()
    ensures var ws := ObjectWords(m);
            ExpectedObjects(m) == [
              F.ObjectEntry(ws[0], ws[1], ws[2], ws[3], ws[4], ws[5]),
              F.ObjectEntry(ws[6], ws[7], ws[8], ws[9], ws[10], ws[11]),
              F.ObjectEntry(ws[12], ws[13], ws[14], ws[15], ws[16], ws[17])]
  {
  }

  // ----- the layout of the file -----

  /** Every part lies where the header says. */
  predicate LaidOut(f: seq<byte>, m: Image)
    requires m.Fits() && m.Valid()
  {
    && Lies(f, 0, MZ_STUB)
    && Lies(f, LX_HEADER_OFFSET, Words(HeaderWords(m)))
    && Lies(f, LX_HEADER_OFFSET + LX_HEADER_SIZE, Words(ObjectWords(m)))
    && Lies(f, LX_HEADER_OFFSET + LX_HEADER_SIZE + 72, PageMapBytes(m, m.Total()))
    && Lies(f, LX_HEADER_OFFSET + m.EntryOff(), ENTRY_TABLE)
    && Lies(f, LX_HEADER_OFFSET + m.FixupPageOff(), Words(FixupPageTable(m.Pages())))
    && Lies(f, LX_HEADER_OFFSET + m.RecordOff(), m.Records())
    && Lies(f, LX_HEADER_OFFSET + m.ModulesOff(), m.ModuleBytes())
    && Lies(f, m.DataOff(), m.code)
    && Lies(f, m.DataOff() + |m.code|, m.data)
    && Lies(f, m.DataOff() + |m.code| + |m.data|, Zeros(PAGE_SIZE * STACK_PAGES))
  }

  lemma PartStart(parts: seq<seq<byte>>, i: nat, at: nat)
    requires i < |parts| && Start(parts, i) == at
    ensures Start(parts, i + 1) == at + |parts[i]| && Lies(Join(parts), at, parts[i])
  {
    JoinAt(parts, i);
    LiesPart(parts, i);
  }

  lemma FileIsLaidOut(m: Image)
    requires m.Fits() && m.Valid()
    ensures LaidOut(Join(Parts(m)), m)
    ensures |Join(Parts(m))| == m.DataOff() + |m.code| + |m.data| + PAGE_SIZE * STACK_PAGES
  {
    hide Lies, Join, Words, HeaderWords, ObjectWords, PageMapBytes, FixupPageTable, Zeros;
    var ps := Parts(m);
    PageMapLength(m, m.Total());
    assert |m.Pages()| == m.Total();
    assert |Words(FixupPageTable(m.Pages()))| == 4 * (m.Total() + 1);
    FirstStart(ps);
    PartStart(ps, 0, 0);
    PartStart(ps, 1, LX_HEADER_OFFSET);
    PartStart(ps, 2, LX_HEADER_OFFSET + LX_HEADER_SIZE);
    PartStart(ps, 3, LX_HEADER_OFFSET + LX_HEADER_SIZE + 72);
    PartStart(ps, 4, LX_HEADER_OFFSET + m.ResidentOff());
    PartStart(ps, 5, LX_HEADER_OFFSET + m.EntryOff());
    PartStart(ps, 6, LX_HEADER_OFFSET + m.FixupPageOff());
    PartStart(ps, 7, LX_HEADER_OFFSET + m.RecordOff());
    PartStart(ps, 8, LX_HEADER_OFFSET + m.ModulesOff());
    PartStart(ps, 9, LX_HEADER_OFFSET + m.ProcOff());
    PartStart(ps, 10, m.DataOff());
    PartStart(ps, 11, m.DataOff() + |m.code|);
    PartStart(ps, 12, m.DataOff() + |m.code| + |m.data|);
    assert ps[..13] == ps;
  }

  lemma FirstStart<T>(parts: seq<seq<T>>)
    ensures Start(parts, 0) == 0
  {
  }

  lemma {:induction false} PageMapLength(m: Image, n: nat)
    requires PAGE_SIZE * n < TWO32
    ensures |PageMapBytes(m, n)| == 8 * n
  {
    if n > 0 {
      PageMapLength(m, n - 1);
    }
  }

  // ----- the header -----

  lemma ReadsHeader(f: seq<byte>, m: Image)
    requires m.Fits() && m.Valid() && LaidOut(f, m)
    ensures P.ReadHeader(f) == Ok(F.Read(F.LxHeader(Words(HeaderWords(m))), LX_HEADER_OFFSET))
  {
    var ws := HeaderWords(m);
    hide HeaderWords;
    LiesMz(f);
    WordsAt(ws, 0);
    LiesSub(f, LX_HEADER_OFFSET, Words(ws), 0, U32(ws[0]));
    FirstWord(m);
    assert f[64..68][0] == f[64] && f[64..68][1] == f[65];
    assert f[64..64 + 172] == Words(ws);
  }

  lemma FirstWord(m: Image)
    requires m.Fits()
    ensures HeaderWords(m)[0] == 0x584C && U32(0x584C) == [0x4C, 0x58, 0, 0]
  {
  }

  lemma LiesMz(f: seq<byte>)
    requires Lies(f, 0, MZ_STUB)
    ensures |f| >= 64 && f[0] == 0x4D && f[1] == 0x5A && Get32(f, 0x3C) == LX_HEADER_OFFSET
  {
    assert |MZ_STUB| == 64;
    assert forall i :: 0 <= i < 64 ==> f[i] == f[0..64][i] == MZ_STUB[i];
  }

  /** The header fields the parser uses. */
  predicate Fields(h: F.LxHeader, m: Image)
    requires h.Valid() && m.Fits()
  {
    && h.ModuleNumPages() == m.Total() && h.EipObject() == 1 && h.EspObject() == 3 && h.PageOffsetShift() == 0
    && h.LoaderSectionSize() == m.FixupPageOff() && h.ObjectTableOffset() == LX_HEADER_SIZE && h.ObjectCount() == 3
    && h.ObjectPageMapOffset() == LX_HEADER_SIZE + 72 && h.ResourceTableOffset() == 0 && h.ResourceCount() == 0
    && h.EntryTableOffset() == m.EntryOff() && h.FixupPageTableOffset() == m.FixupPageOff()
    && h.FixupRecordTableOffset() == m.RecordOff() && h.ImportModulesOffset() == m.ModulesOff()
    && h.ImportModulesCount() == |m.modules| % TWO32 && h.ImportProcNamesOffset() == m.ProcOff()
    && h.DataPagesOffset() == m.DataOff() && h.NonResidentOffset() == 0 && h.NonResidentLength() == 0
    && h.Eip() == m.entryOffset
  }

  lemma HeaderHasFields(m: Image)
    requires m.Fits()
    ensures F.LxHeader(Words(HeaderWords(m))).Valid() && Fields(F.LxHeader(Words(HeaderWords(m))), m)
  {
    hide Words, Get32, HeaderWords, Fields;
    var ws := HeaderWords(m);
    var raw := Words(ws);
    WordsAllAt(ws);
    HeaderFieldOffsets(raw, ws);
    HeaderValues(m, F.LxHeader(raw));
  }

  lemma HeaderValues(m: Image, h: F.LxHeader)
    requires m.Fits() && h.Valid()
    requires var ws, raw := HeaderWords(m), h.raw;
             && Get32(raw, 0x14) == ws[5] && Get32(raw, 0x18) == ws[6] && Get32(raw, 0x1C) == ws[7] && Get32(raw, 0x20) == ws[8]
             && Get32(raw, 0x2C) == ws[11] && Get32(raw, 0x38) == ws[14] && Get32(raw, 0x40) == ws[16] && Get32(raw, 0x44) == ws[17]
             && Get32(raw, 0x48) == ws[18] && Get32(raw, 0x50) == ws[20] && Get32(raw, 0x54) == ws[21] && Get32(raw, 0x5C) == ws[23]
             && Get32(raw, 0x68) == ws[26] && Get32(raw, 0x6C) == ws[27] && Get32(raw, 0x70) == ws[28] && Get32(raw, 0x74) == ws[29]
             && Get32(raw, 0x78) == ws[30] && Get32(raw, 0x80) == ws[32] && Get32(raw, 0x88) == ws[34] && Get32(raw, 0x8C) == ws[35]
    ensures Fields(h, m)
  {
    hide Get32, Join;
  }

  lemma WordsAllAt(ws: seq<u32>)
    ensures |Words(ws)| == 4 * |ws| && forall i :: 0 <= i < |ws| ==> Get32(Words(ws), 4 * i) == ws[i]
  {
    forall i | 0 <= i < |ws|
      ensures Get32(Words(ws), 4 * i) == ws[i]
    {
      WordsAt(ws, i);
    }
  }

  /** Byte offsets of the fields, as word numbers. */
  lemma HeaderFieldOffsets(raw: seq<byte>, ws: seq<u32>)
    requires |raw| == 172 && |ws| == 43 && forall i :: 0 <= i < 43 ==> Get32(raw, 4 * i) == ws[i]
    ensures Get32(raw, 0x14) == ws[5] && Get32(raw, 0x18) == ws[6] && Get32(raw, 0x1C) == ws[7] && Get32(raw, 0x20) == ws[8]
    ensures Get32(raw, 0x2C) == ws[11] && Get32(raw, 0x38) == ws[14] && Get32(raw, 0x40) == ws[16] && Get32(raw, 0x44) == ws[17]
    ensures Get32(raw, 0x48) == ws[18] && Get32(raw, 0x50) == ws[20] && Get32(raw, 0x54) == ws[21] && Get32(raw, 0x5C) == ws[23]
    ensures Get32(raw, 0x68) == ws[26] && Get32(raw, 0x6C) == ws[27] && Get32(raw, 0x70) == ws[28] && Get32(raw, 0x74) == ws[29]
    ensures Get32(raw, 0x78) == ws[30] && Get32(raw, 0x80) == ws[32] && Get32(raw, 0x88) == ws[34] && Get32(raw, 0x8C) == ws[35]
  {
    hide Get32;
    assert Get32(raw, 4 * 5) == ws[5] && Get32(raw, 4 * 6) == ws[6] && Get32(raw, 4 * 7) == ws[7] && Get32(raw, 4 * 8) == ws[8];
    assert Get32(raw, 4 * 11) == ws[11] && Get32(raw, 4 * 14) == ws[14] && Get32(raw, 4 * 16) == ws[16];
    assert Get32(raw, 4 * 17) == ws[17] && Get32(raw, 4 * 18) == ws[18] && Get32(raw, 4 * 20) == ws[20];
    assert Get32(raw, 4 * 21) == ws[21] && Get32(raw, 4 * 23) == ws[23] && Get32(raw, 4 * 26) == ws[26];
    assert Get32(raw, 4 * 27) == ws[27] && Get32(raw, 4 * 28) == ws[28] && Get32(raw, 4 * 29) == ws[29];
    assert Get32(raw, 4 * 30) == ws[30] && Get32(raw, 4 * 32) == ws[32] && Get32(raw, 4 * 34) == ws[34];
    assert Get32(raw, 4 * 35) == ws[35];
  }

  // ----- the whole file -----

  lemma ReadsTables(f: seq<byte>, m: Image, h: F.LxHeader)
    requires m.Fits() && m.Valid() && LaidOut(f, m) && h.Valid() && Fields(h, m) && AllAbsolute(m.Pages())
    ensures P.TablesSpec(f, h, LX_HEADER_OFFSET)
         == Ok(P.Tables(ExpectedObjects(m), ExpectedPages(m), [], FixupPageTable(m.Pages()), ToRecordPages(m.Pages())))
  {
    hide ExpectedObjects, ObjectWords, Lies, P.ObjectTable, P.PageMap, P.WordTable, P.FixupsByPage, Words, FixupPageTable, PageMapBytes, Get32;
    hide ExpectedPages, AllAbsolute, ToRecords, Join, EncodePages, EncodeNames;
    var pages := m.Pages();
    assert |pages| == m.Total();
    PageMapLength(m, m.Total());
    ObjectRows(m);
    ReadsObjects(f, LX_HEADER_OFFSET + LX_HEADER_SIZE, ObjectWords(m));
    ReadsPageMap(f, LX_HEADER_OFFSET + LX_HEADER_SIZE + 72, m);
    ReadsWords(f, LX_HEADER_OFFSET + m.FixupPageOff(), FixupPageTable(pages));
    assert |FixupPageTable(pages)| == m.Total() + 1;
    assert |m.Records()| < TWO32;
    ReadsPages(f, LX_HEADER_OFFSET + m.RecordOff(), pages, m.Total());
    assert P.ObjectTable(f, LX_HEADER_OFFSET + h.ObjectTableOffset(), h.ObjectCount()) == Ok(ExpectedObjects(m));
    assert P.PageMap(f, LX_HEADER_OFFSET + h.ObjectPageMapOffset(), h.ModuleNumPages()) == Ok(ExpectedPages(m));
    assert P.WordTable(f, LX_HEADER_OFFSET + h.FixupPageTableOffset(), h.ModuleNumPages() + 1) == Ok(FixupPageTable(pages));
    assert P.FixupsByPage(f, LX_HEADER_OFFSET + h.FixupRecordTableOffset(), FixupPageTable(pages), h.ModuleNumPages()) == Ok(ToRecordPages(pages)[..m.Total()]);
    assert ToRecordPages(pages)[..m.Total()] == ToRecordPages(pages);
  }

  lemma NoEntries(f: seq<byte>, at: nat)
    requires Lies(f, at, ENTRY_TABLE)
    ensures P.EntryTable(f, at, 1) == Ok([])
  {
    assert f[at] == f[at..at + 2][0] == 0;
  }

  lemma ReadsAllNames(f: seq<byte>, m: Image, h: F.LxHeader)
    requires m.Fits() && m.Valid() && LaidOut(f, m) && h.Valid() && Fields(h, m)
    requires PlainNames(m.modules) && |m.modules| < TWO32
    ensures P.NamesSpec(f, h, LX_HEADER_OFFSET) == Ok(P.Names(m.modules, [], [], []))
  {
    hide LaidOut, Get32, P.ModuleNames, P.EntryTable, P.NonResident, Fields;
    NamesLieThere(f, m);
    ReadsNames(f, LX_HEADER_OFFSET + m.ModulesOff(), m.modules, |m.modules|);
    assert m.modules[..|m.modules|] == m.modules;
    NoEntries(f, LX_HEADER_OFFSET + m.EntryOff());
    NoProcNames(f, m, h);
    NameFields(m, h);
  }

  lemma NamesLieThere(f: seq<byte>, m: Image)
    requires m.Fits() && m.Valid() && LaidOut(f, m)
    ensures Lies(f, LX_HEADER_OFFSET + m.ModulesOff(), m.ModuleBytes()) && Lies(f, LX_HEADER_OFFSET + m.EntryOff(), ENTRY_TABLE)
  {
    hide Lies;
  }

  lemma NoProcNames(f: seq<byte>, m: Image, h: F.LxHeader)
    requires m.Fits() && h.Valid() && Fields(h, m)
    ensures P.ProcNames(f, h, LX_HEADER_OFFSET) == Ok([])
  {
    hide Get32;
  }

  lemma NameFields(m: Image, h: F.LxHeader)
    requires m.Fits() && h.Valid() && Fields(h, m) && |m.modules| < TWO32
    ensures h.ImportModulesOffset() == m.ModulesOff() && h.ImportModulesCount() == |m.modules|
    ensures h.EntryTableOffset() == m.EntryOff() && h.NonResidentOffset() == 0
  {
    hide Get32;
  }

  /**
   * Parsing the written file gives back the object table, the page map, the page-by-page
   * fixups and the import names, and nothing else.
   */
  lemma ParseUndoesWrite(m: Image)
    requires m.Fits() && m.Valid() && AllAbsolute(m.Pages()) && PlainNames(m.modules)
    requires m.Total() <= P.MAX_PAGES && |m.modules| < TWO32
    ensures P.ParseSpec(Join(Parts(m))) == Ok(Expected(m))
  {
    hide LaidOut, HeaderWords, Parts, Words, Fields, P.TablesSpec, P.NamesSpec, P.ReadHeader;
    var f := Join(Parts(m));
    var h := F.LxHeader(Words(HeaderWords(m)));
    FileIsLaidOut(m);
    ReadsHeader(f, m);
    HeaderHasFields(m);
    HeaderPasses(h, m);
    ReadsTables(f, m, h);
    ReadsAllNames(f, m, h);
  }

  lemma HeaderPasses(h: F.LxHeader, m: Image)
    requires h.Valid() && m.Fits() && Fields(h, m) && m.Total() <= P.MAX_PAGES
    ensures P.CheckHeader(h) == Ok(())
  {
  }

  /** Beyond the parser's limit on pages the file is rejected. */
  lemma TooManyPagesFail(m: Image)
    requires m.Fits() && m.Valid() && m.Total() > P.MAX_PAGES
    ensures P.ParseSpec(Join(Parts(m))) == Err(F.TooManyPages)
  {
    hide LaidOut, HeaderWords, Parts, Words, P.TablesSpec, P.NamesSpec, P.ReadHeader;
    FileIsLaidOut(m);
    ReadsHeader(Join(Parts(m)), m);
    HeaderHasFields(m);
  }
}
