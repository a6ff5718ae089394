/**
 * `LxFile::parse` (src/lx.rs): the reader loops, each proved against a function of the
 * file contents.  The round-trip proof uses those functions.
 */
module LxParser {
  import opened Bytes
  import opened Wrappers
  import opened LxFormat

  const MAX_OBJECTS := 1024
  const MAX_PAGES := 65536
  const MAX_RESOURCES := 4096
  const MZ_SIZE := 64

  // ----- fixed-size tables -----

  function ObjectTable(f: seq<byte>, pos: nat, n: nat): Result<seq<ObjectEntry>, ParseError> {
    if n == 0 || pos + OBJECT_SIZE * n <= |f|
    then Ok(seq(n, i requires 0 <= i < n => ObjectAt(f, pos + OBJECT_SIZE * i)))
    else Err(UnexpectedEof)
  }

  function PageMap(f: seq<byte>, pos: nat, n: nat): Result<seq<PageEntry>, ParseError> {
    if n == 0 || pos + PAGE_ENTRY_SIZE * n <= |f|
    then Ok(seq(n, i requires 0 <= i < n => PageAt(f, pos + PAGE_ENTRY_SIZE * i)))
    else Err(UnexpectedEof)
  }

  function ResourceTable(f: seq<byte>, pos: nat, n: nat): Result<seq<ResourceEntry>, ParseError> {
    if n == 0 || pos + RESOURCE_SIZE * n <= |f|
    then Ok(seq(n, i requires 0 <= i < n => ResourceAt(f, pos + RESOURCE_SIZE * i)))
    else Err(UnexpectedEof)
  }

  function WordTable(f: seq<byte>, pos: nat, n: nat): Result<seq<u32>, ParseError> {
    if n == 0 || pos + 4 * n <= |f|
    then Ok(seq(n, i requires 0 <= i < n => Get32(f, pos + 4 * i)))
    else Err(UnexpectedEof)
  }

  method ReadObjectTable(f: seq<byte>, pos: nat, n: nat) returns (r: Result<seq<ObjectEntry>, ParseError>)
    ensures r == ObjectTable(f, pos, n)
  {
    var entries, cursor := [], pos;
    for i := 0 to n
      invariant cursor == pos + OBJECT_SIZE * i && (i == 0 || cursor <= |f|)
      invariant |entries| == i && forall k :: 0 <= k < i ==> entries[k] == ObjectAt(f, pos + OBJECT_SIZE * k)
    {
      if cursor + OBJECT_SIZE > |f| {
        return Err(UnexpectedEof);
      }
      entries, cursor := entries + [ObjectAt(f, cursor)], cursor + OBJECT_SIZE;
    }
    assert entries == ObjectTable(f, pos, n).value;
    return Ok(entries);
  }

  method ReadPageMap(f: seq<byte>, pos: nat, n: nat) returns (r: Result<seq<PageEntry>, ParseError>)
    ensures r == PageMap(f, pos, n)
  {
    var entries, cursor := [], pos;
    for i := 0 to n
      invariant cursor == pos + PAGE_ENTRY_SIZE * i && (i == 0 || cursor <= |f|)
      invariant |entries| == i && forall k :: 0 <= k < i ==> entries[k] == PageAt(f, pos + PAGE_ENTRY_SIZE * k)
    {
      if cursor + PAGE_ENTRY_SIZE > |f| {
        return Err(UnexpectedEof);
      }
      entries, cursor := entries + [PageAt(f, cursor)], cursor + PAGE_ENTRY_SIZE;
    }
    assert entries == PageMap(f, pos, n).value;
    return Ok(entries);
  }

  method ReadResourceTable(f: seq<byte>, pos: nat, n: nat) returns (r: Result<seq<ResourceEntry>, ParseError>)
    ensures r == ResourceTable(f, pos, n)
  {
    var entries, cursor := [], pos;
    for i := 0 to n
      invariant cursor == pos + RESOURCE_SIZE * i && (i == 0 || cursor <= |f|)
      invariant |entries| == i && forall k :: 0 <= k < i ==> entries[k] == ResourceAt(f, pos + RESOURCE_SIZE * k)
    {
      if cursor + RESOURCE_SIZE > |f| {
        return Err(UnexpectedEof);
      }
      entries, cursor := entries + [ResourceAt(f, cursor)], cursor + RESOURCE_SIZE;
    }
    assert entries == ResourceTable(f, pos, n).value;
    return Ok(entries);
  }

  method ReadWordTable(f: seq<byte>, pos: nat, n: nat) returns (r: Result<seq<u32>, ParseError>)
    ensures r == WordTable(f, pos, n) && (r.Ok? ==> |r.value| == n)
  {
    var entries, cursor := [], pos;
    for i := 0 to n
      invariant cursor == pos + 4 * i && (i == 0 || cursor <= |f|)
      invariant |entries| == i && forall k :: 0 <= k < i ==> entries[k] == Get32(f, pos + 4 * k)
    {
      if cursor + 4 > |f| {
        return Err(UnexpectedEof);
      }
      entries, cursor := entries + [Get32(f, cursor)], cursor + 4;
    }
    assert entries == WordTable(f, pos, n).value;
    return Ok(entries);
  }

  // ----- fixup records -----

  /** The records from `pos` up to `end`; the last one may run past `end`. */
  function PageFixups(f: seq<byte>, pos: nat, end: nat): Result<seq<FixupRecord>, ParseError>
    decreases end - pos
  {
    if pos >= end then Ok([])
    else
      var r :- ReadFixup(f, pos);
      var rest :- PageFixups(f, r.next, end);
      Ok([r.value] + rest)
  }

  /** The first `n` pages' records, page by page. */
  function FixupsByPage(f: seq<byte>, start: nat, table: seq<u32>, n: nat): Result<seq<seq<FixupRecord>>, ParseError>
    requires n < |table| || n == 0
  {
    if n == 0 then Ok([])
    else
      var before :- FixupsByPage(f, start, table, n - 1);
      var page :- PageFixups(f, start + table[n - 1], start + table[n]);
      Ok(before + [page])
  }

  function Prepend<T>(xs: seq<T>, r: Result<seq<T>, ParseError>): Result<seq<T>, ParseError> {
    if r.Ok? then Ok(xs + r.value) else r
  }

  lemma PrependNothing<T>(xs: seq<T>, r: Result<seq<T>, ParseError>)
    ensures Prepend([], r) == r
    ensures Prepend(xs, Ok([])) == Ok(xs)
  {
    assert r.Ok? ==> [] + r.value == r.value;
    assert xs + [] == xs;
  }

  /** One turn of the loop over the records of a page. */
  lemma PageFixupsStep(f: seq<byte>, pos: nat, end: nat, records: seq<FixupRecord>)
    requires pos < end
    ensures var one := ReadFixup(f, pos);
            Prepend(records, PageFixups(f, pos, end)) ==
            if one.Err? then Err(one.error) else Prepend(records + [one.value.value], PageFixups(f, one.value.next, end))
  {
    var one := ReadFixup(f, pos);
    hide ReadFixup;
    if one.Ok? {
      var rest := PageFixups(f, one.value.next, end);
      assert rest.Ok? ==> records + ([one.value.value] + rest.value) == (records + [one.value.value]) + rest.value;
    }
  }

  method ReadPageFixups(f: seq<byte>, start: nat, end: nat) returns (r: Result<seq<FixupRecord>, ParseError>)
    ensures r == PageFixups(f, start, end)
  {
    hide PageFixups, Prepend, ReadFixup;
    var records: seq<FixupRecord>, cursor := [], start;
    PrependNothing(records, PageFixups(f, start, end));
    while cursor < end
      invariant PageFixups(f, start, end) == Prepend(records, PageFixups(f, cursor, end))
    {
      PageFixupsStep(f, cursor, end, records);
      var one := ReadFixup(f, cursor);
      if one.Err? {
        return Err(one.error);
      }
      records, cursor := records + [one.value.value], one.value.next;
    }
    NoFixups(f, cursor, end);
    PrependNothing(records, Ok([]));
    return Ok(records);
  }

  lemma {:induction false} FixupsFail(f: seq<byte>, start: nat, table: seq<u32>, i: nat, n: nat)
    requires i <= n < |table| && FixupsByPage(f, start, table, i).Err?
    ensures FixupsByPage(f, start, table, n) == FixupsByPage(f, start, table, i)
  {
    hide PageFixups;
    if i < n {
      FixupsFail(f, start, table, i, n - 1);
    }
  }

  lemma NoFixups(f: seq<byte>, start: nat, end: nat)
    ensures end <= start ==> PageFixups(f, start, end) == Ok([])
  {
  }

  lemma FixupsStep(f: seq<byte>, start: nat, table: seq<u32>, n: nat, before: seq<seq<FixupRecord>>)
    requires n + 1 < |table| && FixupsByPage(f, start, table, n) == Ok(before)
    ensures FixupsByPage(f, start, table, n + 1) ==
            match PageFixups(f, start + table[n], start + table[n + 1])
            case Err(e) => Err(e)
            case Ok(page) => Ok(before + [page])
  {
    hide PageFixups;
  }

  lemma NoPagesYet(f: seq<byte>, start: nat, table: seq<u32>)
    ensures FixupsByPage(f, start, table, 0) == Ok([])
  {
  }

  method ReadFixupsByPage(f: seq<byte>, start: nat, table: seq<u32>, pages: nat)
    returns (r: Result<seq<seq<FixupRecord>>, ParseError>)
    requires pages < |table|
    ensures r == FixupsByPage(f, start, table, pages)
  {
    var byPage: seq<seq<FixupRecord>> := [];
    hide FixupsByPage, PageFixups;
    NoPagesYet(f, start, table);
    for i := 0 to pages
      invariant FixupsByPage(f, start, table, i) == Ok(byPage)
    {
      FixupsStep(f, start, table, i, byPage);
      NoFixups(f, start + table[i], start + table[i + 1]);
      var records: seq<FixupRecord> := [];
      if table[i + 1] > table[i] {
        var page := ReadPageFixups(f, start + table[i], start + table[i + 1]);
        if page.Err? {
          FixupsFail(f, start, table, i + 1, pages);
          return Err(page.error);
        }
        records := page.value;
      }
      byPage := byPage + [records];
    }
    return Ok(byPage);
  }

  // ----- import module names -----

  function Name(f: seq<byte>, pos: nat): (r: Result<Read<string>, ParseError>)
    ensures r.Ok? ==> pos < r.value.next <= |f|
  {
    var len :- Byte(f, pos);
    if len.next + len.value <= |f|
    then Ok(Read(Chars(f[len.next..len.next + len.value]), len.next + len.value))
    else Err(UnexpectedEof)
  }

  function ModuleNames(f: seq<byte>, pos: nat, n: nat): Result<Read<seq<string>>, ParseError> {
    if n == 0 then Ok(Read([], pos))
    else
      var before :- ModuleNames(f, pos, n - 1);
      var name :- Name(f, before.next);
      Ok(Read(before.value + [name.value], name.next))
  }

  lemma NamesFail(f: seq<byte>, pos: nat, i: nat, n: nat)
    requires i <= n && ModuleNames(f, pos, i).Err?
    ensures ModuleNames(f, pos, n) == ModuleNames(f, pos, i)
  {
  }

  method ReadModuleNames(f: seq<byte>, pos: nat, n: nat) returns (r: Result<Read<seq<string>>, ParseError>)
    ensures r == ModuleNames(f, pos, n)
  {
    var names: seq<string>, cursor := [], pos;
    for i := 0 to n
      invariant ModuleNames(f, pos, i) == Ok(Read(names, cursor))
    {
      var name := Name(f, cursor);
      if name.Err? {
        NamesFail(f, pos, i + 1, n);
        return Err(name.error);
      }
      names, cursor := names + [name.value.value], name.value.next;
    }
    return Ok(Read(names, cursor));
  }

  function ProcNames(f: seq<byte>, header: LxHeader, lxOffset: nat): Result<seq<byte>, ParseError>
    requires header.Valid()
  {
    var start := lxOffset + header.ImportProcNamesOffset();
    var end := lxOffset + header.LoaderSectionSize();
    if header.ImportProcNamesOffset() == 0 || end <= start then Ok([])
    else if end <= |f| then Ok(f[start..end])
    else Err(UnexpectedEof)
  }

  // ----- entry table and non-resident names -----

  /** `count` ENTRY32 slots of five bytes each. */
  function Entries32(f: seq<byte>, pos: nat, ordinal: nat, objectNum: u16, count: nat): Result<seq<Export>, ParseError>
    decreases count
  {
    if count == 0 then Ok([])
    else if pos + 5 > |f| then Err(UnexpectedEof)
    else
      var rest :- Entries32(f, pos + 5, ordinal + 1, objectNum, count - 1);
      Ok([Export(ordinal, objectNum, Get32(f, pos + 1))] + rest)
  }

  /** The bundles from `pos` on; a zero count, an unknown type or the end of the file ends the table. */
  function EntryTable(f: seq<byte>, pos: nat, ordinal: nat): Result<seq<Export>, ParseError>
    decreases |f| - pos
  {
    if pos >= |f| || f[pos] == 0 then Ok([])
    else
      var count: int := f[pos];
      var ty :- Byte(f, pos + 1);
      var next := ty.next;
      if ty.value == 0 then
        EntryTable(f, next, ordinal + count)
      else if ty.value == 3 then
        var obj :- Half(f, next);
        var entries :- Entries32(f, obj.next, ordinal, obj.value, count);
        var rest :- EntryTable(f, obj.next + 5 * count, ordinal + count);
        Ok(entries + rest)
      else if ty.value == 1 then
        if next + 3 * count > |f| then Err(UnexpectedEof) else EntryTable(f, next + 3 * count, ordinal + count)
      else if ty.value == 2 then
        if next + 5 * count > |f| then Err(UnexpectedEof) else EntryTable(f, next + 5 * count, ordinal + count)
      else
        Ok([])
  }

  /** One bundle. */
  lemma EntryTableStep(f: seq<byte>, pos: nat, ordinal: nat)
    requires pos < |f| && f[pos] != 0
    ensures var count: int := f[pos];
            EntryTable(f, pos, ordinal) ==
            if pos + 2 > |f| then Err(UnexpectedEof)
            else
              match f[pos + 1]
              case 0 => EntryTable(f, pos + 2, ordinal + count)
              case 3 =>
                if pos + 4 > |f| then Err(UnexpectedEof)
                else
                  (match Entries32(f, pos + 4, ordinal, Get16(f, pos + 2), count)
                   case Err(e) => Err(e)
                   case Ok(entries) => Prepend(entries, EntryTable(f, pos + 4 + 5 * count, ordinal + count)))
              case 1 =>
                if pos + 2 + 3 * count > |f| then Err(UnexpectedEof) else EntryTable(f, pos + 2 + 3 * count, ordinal + count)
              case 2 =>
                if pos + 2 + 5 * count > |f| then Err(UnexpectedEof) else EntryTable(f, pos + 2 + 5 * count, ordinal + count)
              case _ => Ok([])
  {
    hide Entries32, Get16;
  }

  lemma NoEntries(f: seq<byte>, pos: nat, ordinal: nat)
    ensures pos >= |f| || f[pos] == 0 ==> EntryTable(f, pos, ordinal) == Ok([])
  {
  }

  lemma PrependTwice<T>(xs: seq<T>, ys: seq<T>, r: Result<seq<T>, ParseError>)
    ensures Prepend(xs, Prepend(ys, r)) == Prepend(xs + ys, r)
    ensures r.Err? ==> Prepend(xs, r) == r
  {
    assert r.Ok? ==> xs + (ys + r.value) == (xs + ys) + r.value;
  }

  method ReadEntryTable(f: seq<byte>, start: nat) returns (r: Result<seq<Export>, ParseError>)
    ensures r == EntryTable(f, start, 1)
  {
    hide EntryTable, Entries32, Prepend, Get16;
    var exports: seq<Export> := [];
    var pos: nat, ordinal: nat := start, 1;
    PrependNothing(exports, EntryTable(f, start, 1));
    while pos < |f| && f[pos] != 0
      invariant EntryTable(f, start, 1) == Prepend(exports, EntryTable(f, pos, ordinal))
      decreases |f| - pos
    {
      var count: int := f[pos];
      EntryTableStep(f, pos, ordinal);
      PrependTwice(exports, [], EntryTable(f, pos, ordinal));
      if pos + 2 > |f| {
        return Err(UnexpectedEof);
      }
      var ty := f[pos + 1];
      if ty == 0 {
        pos := pos + 2;
      } else if ty == 3 {
        if pos + 4 > |f| {
          return Err(UnexpectedEof);
        }
        var entries := ReadEntries32(f, pos + 4, ordinal, Get16(f, pos + 2), count);
        if entries.Err? {
          return Err(entries.error);
        }
        PrependTwice(exports, entries.value, EntryTable(f, pos + 4 + 5 * count, ordinal + count));
        exports, pos := exports + entries.value, pos + 4 + 5 * count;
      } else if ty == 1 || ty == 2 {
        var width := if ty == 1 then 3 else 5;
        if pos + 2 + width * count > |f| {
          return Err(UnexpectedEof);
        }
        pos := pos + 2 + width * count;
      } else {
        PrependNothing(exports, Ok([]));
        return Ok(exports);
      }
      ordinal := ordinal + count;
    }
    NoEntries(f, pos, ordinal);
    PrependNothing(exports, Ok([]));
    return Ok(exports);
  }

  method ReadEntries32(f: seq<byte>, pos: nat, ordinal: nat, objectNum: u16, count: nat)
    returns (r: Result<seq<Export>, ParseError>)
    ensures r == Entries32(f, pos, ordinal, objectNum, count)
  {
    var entries: seq<Export> := [];
    PrependNothing(entries, Entries32(f, pos, ordinal, objectNum, count));
    for i := 0 to count
      invariant Entries32(f, pos, ordinal, objectNum, count)
             == Prepend(entries, Entries32(f, pos + 5 * i, ordinal + i, objectNum, count - i))
    {
      var at := pos + 5 * i;
      if at + 5 > |f| {
        return Err(UnexpectedEof);
      }
      var entry := Export(ordinal + i, objectNum, Get32(f, at + 1));
      ghost var rest := Entries32(f, at + 5, ordinal + i + 1, objectNum, count - i - 1);
      assert rest.Ok? ==> entries + ([entry] + rest.value) == (entries + [entry]) + rest.value;
      entries := entries + [entry];
    }
    PrependNothing(entries, Ok([]));
    return Ok(entries);
  }

  /** Length-prefixed names, each followed by its ordinal, up to a zero length. */
  function NonResident(f: seq<byte>, pos: nat): Result<seq<(u16, string)>, ParseError>
    decreases |f| - pos
  {
    if pos >= |f| || f[pos] == 0 then Ok([])
    else
      var name :- Name(f, pos);
      var ordinal :- Half(f, name.next);
      var rest :- NonResident(f, ordinal.next);
      Ok([(ordinal.value, name.value)] + rest)
  }

  method ReadNonResident(f: seq<byte>, start: nat) returns (r: Result<seq<(u16, string)>, ParseError>)
    ensures r == NonResident(f, start)
  {
    hide Name;
    var names: seq<(u16, string)>, pos := [], start;
    PrependNothing(names, NonResident(f, start));
    while pos < |f| && f[pos] != 0
      invariant NonResident(f, start) == Prepend(names, NonResident(f, pos))
      decreases |f| - pos
    {
      var name := Name(f, pos);
      if name.Err? {
        return Err(name.error);
      }
      var ordinal := Half(f, name.value.next);
      if ordinal.Err? {
        return Err(ordinal.error);
      }
      var entry := (ordinal.value.value, name.value.value);
      ghost var rest := NonResident(f, ordinal.value.next);
      assert rest.Ok? ==> names + ([entry] + rest.value) == (names + [entry]) + rest.value;
      names, pos := names + [entry], ordinal.value.next;
    }
    PrependNothing(names, Ok([]));
    return Ok(names);
  }

  // ----- the header and the whole file -----

  function ReadHeader(f: seq<byte>): (r: Result<Read<LxHeader>, ParseError>)
    ensures r.Ok? ==> r.value.value.Valid()
  {
    if |f| < MZ_SIZE then Err(UnexpectedEof)
    else if f[0] != 0x4D || f[1] != 0x5A then Err(InvalidMzSignature)
    else
      var at := Get32(f, 0x3C);
      if at + 2 > |f| then Err(UnexpectedEof)
      else if f[at] != 0x4C || f[at + 1] != 0x58 then Err(InvalidLxSignature)
      else if at + HEADER_SIZE > |f| then Err(UnexpectedEof)
      else Ok(Read(LxHeader(f[at..at + HEADER_SIZE]), at))
  }

  /** The checks `parse` makes on the header before it reads any table, first failure first. */
  function CheckHeader(h: LxHeader): Result<(), ParseError>
    requires h.Valid()
  {
    if h.ObjectCount() > MAX_OBJECTS then Err(TooManyObjects)
    else if h.ModuleNumPages() > MAX_PAGES then Err(TooManyPages)
    else if h.PageOffsetShift() >= 32 then Err(InvalidPageShift)
    else if h.EipObject() > 0 && h.EipObject() > h.ObjectCount() then Err(InvalidEipObject)
    else if h.EspObject() > 0 && h.EspObject() > h.ObjectCount() then Err(InvalidEspObject)
    else Ok(())
  }

  /** What the fixed-layout tables hold. */
  datatype Tables = Tables(
    objects: seq<ObjectEntry>, pages: seq<PageEntry>, resources: seq<ResourceEntry>, fixupPages: seq<u32>,
    fixups: seq<seq<FixupRecord>>)

  /** What the name and entry tables hold. */
  datatype Names = Names(modules: seq<string>, procs: seq<byte>, exports: seq<Export>, nonResident: seq<(u16, string)>)

  function TablesSpec(f: seq<byte>, h: LxHeader, at: nat): Result<Tables, ParseError>
    requires h.Valid()
  {
    var objects :- ObjectTable(f, at + h.ObjectTableOffset(), h.ObjectCount());
    var pages :- PageMap(f, at + h.ObjectPageMapOffset(), h.ModuleNumPages());
    if h.ResourceCount() > MAX_RESOURCES then Err(TooManyResources)
    else
      var resources :- if h.ResourceCount() > 0 && h.ResourceTableOffset() > 0
                       then ResourceTable(f, at + h.ResourceTableOffset(), h.ResourceCount()) else Ok([]);
      var table :- WordTable(f, at + h.FixupPageTableOffset(), h.ModuleNumPages() + 1);
      var fixups :- FixupsByPage(f, at + h.FixupRecordTableOffset(), table, h.ModuleNumPages());
      Ok(Tables(objects, pages, resources, table, fixups))
  }

  function NamesSpec(f: seq<byte>, h: LxHeader, at: nat): Result<Names, ParseError>
    requires h.Valid()
  {
    var modules :- ModuleNames(f, at + h.ImportModulesOffset(), h.ImportModulesCount());
    var procs :- ProcNames(f, h, at);
    var exports :- if h.EntryTableOffset() > 0 then EntryTable(f, at + h.EntryTableOffset(), 1) else Ok([]);
    var nonResident :- if h.NonResidentOffset() > 0 && h.NonResidentLength() > 0
                       then NonResident(f, h.NonResidentOffset()) else Ok([]);
    Ok(Names(modules.value, procs, exports, nonResident))
  }

  function ParseSpec(f: seq<byte>): Result<LxFile, ParseError> {
    var found :- ReadHeader(f);
    var h := found.value;
    var _ :- CheckHeader(h);
    var t :- TablesSpec(f, h, found.next);
    var n :- NamesSpec(f, h, found.next);
    Ok(LxFile(h, t.objects, t.pages, t.fixupPages, t.fixups, t.resources, n.modules, n.procs, n.exports, n.nonResident))
  }

  method ReadTables(f: seq<byte>, h: LxHeader, at: nat) returns (r: Result<Tables, ParseError>)
    requires h.Valid()
    ensures r == TablesSpec(f, h, at)
  {
    hide ObjectTable, PageMap, ResourceTable, WordTable, FixupsByPage;
    var objects :- ReadObjectTable(f, at + h.ObjectTableOffset(), h.ObjectCount());
    var pages :- ReadPageMap(f, at + h.ObjectPageMapOffset(), h.ModuleNumPages());
    if h.ResourceCount() > MAX_RESOURCES {
      return Err(TooManyResources);
    }
    var resources := [];
    if h.ResourceCount() > 0 && h.ResourceTableOffset() > 0 {
      resources :- ReadResourceTable(f, at + h.ResourceTableOffset(), h.ResourceCount());
    }
    var table :- ReadWordTable(f, at + h.FixupPageTableOffset(), h.ModuleNumPages() + 1);
    var fixups :- ReadFixupsByPage(f, at + h.FixupRecordTableOffset(), table, h.ModuleNumPages());
    return Ok(Tables(objects, pages, resources, table, fixups));
  }

  method ReadNames(f: seq<byte>, h: LxHeader, at: nat) returns (r: Result<Names, ParseError>)
    requires h.Valid()
    ensures r == NamesSpec(f, h, at)
  {
    var modules :- ReadModuleNames(f, at + h.ImportModulesOffset(), h.ImportModulesCount());
    var procs :- ProcNames(f, h, at);
    var exports := [];
    if h.EntryTableOffset() > 0 {
      exports :- ReadEntryTable(f, at + h.EntryTableOffset());
    }
    var nonResident := [];
    if h.NonResidentOffset() > 0 && h.NonResidentLength() > 0 {
      nonResident :- ReadNonResident(f, h.NonResidentOffset());
    }
    return Ok(Names(modules.value, procs, exports, nonResident));
  }

  method Parse(f: seq<byte>) returns (r: Result<LxFile, ParseError>)
    ensures r == ParseSpec(f)
  {
    var found :- ReadHeader(f);
    var h := found.value;
    var _ :- CheckHeader(h);
    var t :- ReadTables(f, h, found.next);
    var n :- ReadNames(f, h, found.next);
    return Ok(LxFile(h, t.objects, t.pages, t.fixupPages, t.fixups, t.resources, n.modules, n.procs, n.exports, n.nonResident));
  }
}
