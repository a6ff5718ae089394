/**
 * What loading leaves in memory, for any file and any bases (src/loader/lx_loader.rs:31-151):
 * each byte is the file's, the target's address, or what was there before.
 */
module LoadedFiles {
  import opened Bytes
  import opened Wrappers
  import opened GuestMem
  import opened LxFormat
  import opened Imports
  import opened LxLoader
  import opened Rebase
  import Dlls
  import GenApi

  // ----- where pages and sites are -----

  function Pow2(n: nat): nat {
    if n == 0 then 1 else 2 * Pow2(n - 1)
  }

  lemma {:induction false} ShiftedIs(v: nat, n: nat)
    ensures Shifted(v, n) == v * Pow2(n)
  {
    if n > 0 {
      ShiftedIs(v, n - 1);
    }
  }

  /** Where page `p` of an object is in the page map: map indexes count from one, and zero is taken for one. */
  function MapPlace(o: ObjectEntry, p: nat): nat {
    (if o.pageMapIndex == 0 then 0 else o.pageMapIndex - 1) + p
  }

  predicate HasPage(lx: LxFile, o: nat, p: nat) {
    o < |lx.objectTable| && p < lx.objectTable[o].pageCount && MapPlace(lx.objectTable[o], p) < |lx.pageMap|
  }

  function PageOf(lx: LxFile, o: nat, p: nat): PageEntry
    requires HasPage(lx, o, p)
  {
    lx.pageMap[MapPlace(lx.objectTable[o], p)]
  }

  /** Pages hold at most 4096 bytes and lie inside their objects. */
  ghost predicate PagesInside(lx: LxFile, lens: seq<nat>) {
    && |lens| == |lx.objectTable|
    && forall o: nat, p: nat :: HasPage(lx, o, p) ==> PageOf(lx, o, p).dataSize <= 4096 && p * 4096 + PageOf(lx, o, p).dataSize <= lens[o]
  }

  /** `s` is source offset `k` of fixup record `r` of page `p` of object `o`. */
  predicate IsSite(lx: LxFile, o: nat, p: nat, r: nat, k: nat, s: Site) {
    && o < |lx.objectTable| && p < lx.objectTable[o].pageCount
    && MapPlace(lx.objectTable[o], p) < |lx.fixupsByPage|
    && var records := lx.fixupsByPage[MapPlace(lx.objectTable[o], p)];
       && r < |records| && k < |records[r].sourceOffsets|
       && s == Site(o, p * 4096 + records[r].sourceOffsets[k], records[r].sourceType % 16, records[r].target)
  }

  predicate RecordHas(obj: nat, page: nat, records: seq<FixupRecord>, r: nat, k: nat, s: Site) {
    && r < |records| && k < |records[r].sourceOffsets|
    && s == Site(obj, page * 4096 + records[r].sourceOffsets[k], records[r].sourceType % 16, records[r].target)
  }

  lemma {:induction false} RecordOf(obj: nat, page: nat, rs: seq<FixupRecord>, n: nat, s: Site) returns (r: nat, k: nat)
    requires n <= |rs| && s in RecordSites(obj, page, rs, n)
    ensures RecordHas(obj, page, rs, r, k, s)
  {
    var here := OffsetSites(obj, page, rs[n - 1], |rs[n - 1].sourceOffsets|);
    if s in here {
      r := n - 1;
      k :| 0 <= k < |here| && here[k] == s;
    } else {
      r, k := RecordOf(obj, page, rs, n - 1, s);
    }
  }

  lemma {:induction false} RecordIsVisited(obj: nat, page: nat, rs: seq<FixupRecord>, n: nat, r: nat, k: nat, s: Site)
    requires r < n <= |rs| && RecordHas(obj, page, rs, r, k, s)
    ensures s in RecordSites(obj, page, rs, n)
  {
    if r == n - 1 {
      assert OffsetSites(obj, page, rs[n - 1], |rs[n - 1].sourceOffsets|)[k] == s;
    } else {
      RecordIsVisited(obj, page, rs, n - 1, r, k, s);
    }
  }

  lemma {:induction false} PageSiteOf(lx: LxFile, obj: nat, n: nat, s: Site) returns (p: nat, r: nat, k: nat)
    requires obj < |lx.objectTable| && n <= lx.objectTable[obj].pageCount && s in PageSites(lx, obj, n)
    ensures IsSite(lx, obj, p, r, k, s)
  {
    hide RecordSites;
    var rs := RecordsOn(lx, obj, n - 1);
    if s in RecordSites(obj, n - 1, rs, |rs|) {
      p := n - 1;
      r, k := RecordOf(obj, n - 1, rs, |rs|, s);
    } else {
      p, r, k := PageSiteOf(lx, obj, n - 1, s);
    }
  }

  lemma {:induction false} PageSiteIsVisited(lx: LxFile, obj: nat, n: nat, p: nat, r: nat, k: nat, s: Site)
    requires IsSite(lx, obj, p, r, k, s) && p < n <= lx.objectTable[obj].pageCount
    ensures s in PageSites(lx, obj, n)
  {
    hide RecordSites;
    if p == n - 1 {
      var rs := RecordsOn(lx, obj, n - 1);
      RecordIsVisited(obj, p, rs, |rs|, r, k, s);
    } else {
      PageSiteIsVisited(lx, obj, n - 1, p, r, k, s);
    }
  }

  lemma {:induction false} SiteOf(lx: LxFile, n: nat, s: Site) returns (o: nat, p: nat, r: nat, k: nat)
    requires n <= |lx.objectTable| && s in Sites(lx, n)
    ensures IsSite(lx, o, p, r, k, s)
  {
    hide PageSites;
    if s in PageSites(lx, n - 1, lx.objectTable[n - 1].pageCount) {
      o := n - 1;
      p, r, k := PageSiteOf(lx, n - 1, lx.objectTable[n - 1].pageCount, s);
    } else {
      o, p, r, k := SiteOf(lx, n - 1, s);
    }
  }

  lemma {:induction false} SiteIsVisited(lx: LxFile, n: nat, o: nat, p: nat, r: nat, k: nat, s: Site)
    requires o < n <= |lx.objectTable| && IsSite(lx, o, p, r, k, s)
    ensures s in Sites(lx, n)
  {
    hide PageSites;
    if o == n - 1 {
      PageSiteIsVisited(lx, o, lx.objectTable[o].pageCount, p, r, k, s);
    } else {
      SiteIsVisited(lx, n - 1, o, p, r, k, s);
    }
  }

  /** The loader visits exactly the source offsets of the records of the objects' pages. */
  lemma SitesAreThose(lx: LxFile, s: Site)
    ensures s in Sites(lx) <==> exists o: nat, p: nat, r: nat, k: nat :: IsSite(lx, o, p, r, k, s)
  {
    hide Sites;
    if s in Sites(lx) {
      var o, p, r, k := SiteOf(lx, |lx.objectTable|, s);
    }
    forall o: nat, p: nat, r: nat, k: nat | IsSite(lx, o, p, r, k, s)
      ensures s in Sites(lx)
    {
      SiteIsVisited(lx, |lx.objectTable|, o, p, r, k, s);
    }
  }

  // ----- pages in memory -----

  lemma PagesAgree(lx: LxFile, o: nat, p: nat)
    requires o < |lx.objectTable|
    ensures HasPage(lx, o, p) <==> p < PagesOf(lx, o)
    ensures HasPage(lx, o, p) ==> EntryOf(lx, o, p) == PageOf(lx, o, p)
  {
  }

  /** Where a page starts in the file: its offset counts in units of two to the page shift. */
  function PlaceInFile(lx: LxFile, e: PageEntry): nat
    requires lx.header.Valid()
  {
    lx.header.DataPagesOffset() + e.dataOffset * Pow2(lx.header.PageOffsetShift())
  }

  lemma PlaceIs(lx: LxFile, e: PageEntry)
    requires lx.header.Valid()
    ensures PageOffset(lx, e) == PlaceInFile(lx, e)
  {
    ShiftedIs(e.dataOffset, lx.header.PageOffsetShift());
  }

  predicate PageInFile(lx: LxFile, file: seq<byte>, o: nat, p: nat)
    requires lx.header.Valid() && HasPage(lx, o, p)
  {
    var e := PageOf(lx, o, p);
    e.dataSize == 0 || PlaceInFile(lx, e) + e.dataSize <= |file|
  }

  /** The file holds every page that is not empty. */
  ghost predicate PagesInFile(lx: LxFile, file: seq<byte>)
    requires lx.header.Valid()
  {
    forall o: nat, p: nat :: HasPage(lx, o, p) ==> PageInFile(lx, file, o, p)
  }

  lemma PagesInFileIs(lx: LxFile, file: seq<byte>)
    requires lx.header.Valid()
    ensures PagesInFile(lx, file) <==> PagesReadable(lx, file)
  {
    hide PagesOf, EntryOf, PageOf, PageOffset, PlaceInFile;
    forall o, p | 0 <= o < |lx.objectTable| && 0 <= p
      ensures HasPage(lx, o, p) <==> p < PagesOf(lx, o)
      ensures HasPage(lx, o, p) ==> (PageInFile(lx, file, o, p) <==> PageReadable(lx, file, EntryOf(lx, o, p)))
    {
      PagesAgree(lx, o, p);
      if HasPage(lx, o, p) {
        PlaceIs(lx, PageOf(lx, o, p));
      }
    }
    if PagesInFile(lx, file) {
      forall o | 0 <= o < |lx.objectTable|
        ensures ObjectReadable(lx, file, o)
      {
      }
    }
    if PagesReadable(lx, file) {
      forall o: nat, p: nat | HasPage(lx, o, p)
        ensures PageInFile(lx, file, o, p)
      {
        assert ObjectReadable(lx, file, o);
      }
    }
  }

  /** Objects lie apart in memory, their pages and sites inside them and the sites apart. */
  ghost predicate Placed(lx: LxFile, bases: seq<u32>, lens: seq<nat>, size: nat) {
    && lx.header.Valid() && |bases| == |lx.objectTable|
    && Admissible(bases, lens, size) && PagesInside(lx, lens) && WellPlaced(Sites(lx), lens)
  }

  lemma PlacedParts(lx: LxFile, bases: seq<u32>, lens: seq<nat>, size: nat)
    requires Placed(lx, bases, lens, size)
    ensures lx.header.Valid() && |bases| == |lx.objectTable|
  {
  }

  lemma PageWriteIs(lx: LxFile, file: seq<byte>, bases: seq<u32>, lens: seq<nat>, size: nat, o: nat, p: nat)
    requires Placed(lx, bases, lens, size) && PagesInFile(lx, file) && HasPage(lx, o, p)
    ensures p < PagesOf(lx, o)
    ensures var w, e := ObjectPageWrites(lx, file, bases, o)[p], PageOf(lx, o, p);
            && |w.data| == e.dataSize && (e.dataSize > 0 ==> w.addr == bases[o] + p * 4096)
            && forall k :: 0 <= k < e.dataSize ==> PlaceInFile(lx, e) + k < |file| && w.data[k] == file[PlaceInFile(lx, e) + k]
  {
    hide Sites, WellPlaced, PlaceInFile, PageOffset;
    PagesAgree(lx, o, p);
    PlaceIs(lx, PageOf(lx, o, p));
    assert PageInFile(lx, file, o, p);
  }

  lemma ObjectPagesApart(lx: LxFile, file: seq<byte>, bases: seq<u32>, lens: seq<nat>, size: nat, o: nat)
    requires Placed(lx, bases, lens, size) && PagesInFile(lx, file) && o < |lx.objectTable|
    ensures PairwiseApart(ObjectPageWrites(lx, file, bases, o))
    ensures forall p :: 0 <= p < PagesOf(lx, o) ==> Within(ObjectPageWrites(lx, file, bases, o)[p], bases[o], lens[o])
  {
    hide Sites, WellPlaced, PlaceInFile, PagesOf, ObjectPageWrites, Admissible, PagesInFile;
    var ws := ObjectPageWrites(lx, file, bases, o);
    forall p | 0 <= p < |ws|
      ensures HasPage(lx, o, p) && |ws[p].data| <= 4096 && (ws[p].data != [] ==> ws[p].addr == bases[o] + p * 4096)
      ensures Within(ws[p], bases[o], lens[o])
    {
      PagesAgree(lx, o, p);
      PageWriteIs(lx, file, bases, lens, size, o, p);
    }
  }

  /** The write stays between `base` and `base + len`. */
  predicate Within(w: Write, base: nat, len: nat) {
    w.data == [] || (base <= w.addr && w.addr + |w.data| <= base + len)
  }

  lemma InsideMemory(bases: seq<u32>, lens: seq<nat>, size: nat, o: nat)
    requires Admissible(bases, lens, size) && o < |bases|
    ensures bases[o] + lens[o] <= size
  {
  }

  lemma OwnByte(bases: seq<u32>, lens: seq<nat>, size: nat, o: nat, other: nat, x: nat)
    requires Admissible(bases, lens, size) && o < |bases| && other < |bases| && o != other
    requires bases[o] <= x < bases[o] + lens[o]
    ensures !(bases[other] <= x < bases[other] + lens[other])
  {
  }

  /** Byte `k` of page `p` of object `o`, once that object is mapped. */
  lemma {:induction false} PageIsMapped(lx: LxFile, file: seq<byte>, bases: seq<u32>, lens: seq<nat>, m: seq<byte>, n: nat, o: nat, p: nat, k: nat)
    requires Placed(lx, bases, lens, |m|) && PagesInFile(lx, file) && o < n <= |lx.objectTable|
    requires HasPage(lx, o, p) && k < PageOf(lx, o, p).dataSize
    ensures bases[o] + p * 4096 + k < |m| && PlaceInFile(lx, PageOf(lx, o, p)) + k < |file|
    ensures Apply(m, PageWrites(lx, file, bases, n))[bases[o] + p * 4096 + k] == file[PlaceInFile(lx, PageOf(lx, o, p)) + k]
  {
    hide Sites, WellPlaced, PlaceInFile, PagesOf, ObjectPageWrites, Admissible, PagesInFile, Apply, PairwiseApart;
    var x := bases[o] + p * 4096 + k;
    PageWriteIs(lx, file, bases, lens, |m|, o, p);
    InsideMemory(bases, lens, |m|, o);
    ApplyConcat(m, PageWrites(lx, file, bases, n - 1), ObjectPageWrites(lx, file, bases, n - 1));
    var before := Apply(m, PageWrites(lx, file, bases, n - 1));
    var ws := ObjectPageWrites(lx, file, bases, n - 1);
    ObjectPagesApart(lx, file, bases, lens, |m|, n - 1);
    if o == n - 1 {
      ApplyLands(before, ws, p);
      LandedByte(Apply(before, ws), ws[p], k);
    } else {
      PageIsMapped(lx, file, bases, lens, m, n - 1, o, p, k);
      OwnByte(bases, lens, |m|, o, n - 1, x);
      ApplyOutside(before, ws, x);
    }
  }

  lemma LandedByte(m: seq<byte>, w: Write, k: nat)
    requires Landed(m, w) && k < |w.data|
    ensures m[w.addr + k] == w.data[k]
  {
    assert m[w.addr..w.addr + |w.data|][k] == m[w.addr + k];
  }

  /** `x` belongs to some page. */
  ghost predicate InPage(lx: LxFile, bases: seq<u32>, x: int)
    requires |bases| == |lx.objectTable|
  {
    exists o: nat, p: nat :: HasPage(lx, o, p) && bases[o] + p * 4096 <= x < bases[o] + p * 4096 + PageOf(lx, o, p).dataSize
  }

  lemma OutsideObjectPages(lx: LxFile, file: seq<byte>, bases: seq<u32>, lens: seq<nat>, size: nat, o: nat, x: nat)
    requires Placed(lx, bases, lens, size) && PagesInFile(lx, file) && o < |lx.objectTable| && !InPage(lx, bases, x)
    ensures !Covered(ObjectPageWrites(lx, file, bases, o), x)
  {
    hide Sites, WellPlaced, PlaceInFile, PagesOf, ObjectPageWrites, Admissible, PagesInFile, PagesInside;
    var ws := ObjectPageWrites(lx, file, bases, o);
    forall p | 0 <= p < |ws|
      ensures !(ws[p].addr <= x < ws[p].addr + |ws[p].data|)
    {
      PagesAgree(lx, o, p);
      PageWriteIs(lx, file, bases, lens, size, o, p);
    }
  }

  lemma StillOutside(m: seq<byte>, vs: seq<Write>, ws: seq<Write>, x: nat)
    requires x < |m| && Apply(m, vs)[x] == m[x] && !Covered(ws, x)
    ensures Apply(m, vs + ws)[x] == m[x]
  {
    hide Apply, Covered;
    ApplyConcat(m, vs, ws);
    ApplyOutside(Apply(m, vs), ws, x);
  }

  lemma ApplyNothing(m: seq<byte>)
    ensures Apply(m, []) == m
  {
  }

  lemma {:induction false} OutsidePages(lx: LxFile, file: seq<byte>, bases: seq<u32>, lens: seq<nat>, m: seq<byte>, n: nat, x: nat)
    requires Placed(lx, bases, lens, |m|) && PagesInFile(lx, file) && n <= |lx.objectTable| && x < |m|
    requires !InPage(lx, bases, x)
    ensures Apply(m, PageWrites(lx, file, bases, n))[x] == m[x]
  {
    hide Sites, WellPlaced, PagesInside, Admissible, InPage, PagesInFile, ObjectPageWrites, Covered, Apply;
    if n == 0 {
      ApplyNothing(m);
    } else {
      OutsidePages(lx, file, bases, lens, m, n - 1, x);
      OutsideObjectPages(lx, file, bases, lens, |m|, n - 1, x);
      StillOutside(m, PageWrites(lx, file, bases, n - 1), ObjectPageWrites(lx, file, bases, n - 1), x);
    }
  }

  // ----- loading as a whole -----

  /** Memory `now` is `was` with the file loaded at `bases`. */
  ghost predicate LoadedAt(now: seq<byte>, was: seq<byte>, lx: LxFile, file: seq<byte>, symbols: Symbols, bases: seq<u32>, lens: seq<nat>) {
    && Placed(lx, bases, lens, |was|) && PagesInFile(lx, file)
    && SitesIn(Sites(lx), |bases|)
    && now == Apply(was, LoadWrites(lx, file, symbols, bases))
  }

  function AllPages(lx: LxFile, file: seq<byte>, bases: seq<u32>, was: seq<byte>): (r: seq<byte>)
    requires lx.header.Valid() && |bases| == |lx.objectTable|
    ensures |r| == |was|
  {
    Apply(was, PageWrites(lx, file, bases))
  }

  lemma LoadIsBoth(now: seq<byte>, was: seq<byte>, lx: LxFile, file: seq<byte>, symbols: Symbols, bases: seq<u32>, lens: seq<nat>)
    requires LoadedAt(now, was, lx, file, symbols, bases, lens)
    ensures SitesIn(Sites(lx), |bases|)
    ensures now == Fixed(AllPages(lx, file, bases, was), lx, symbols, bases, Sites(lx))
  {
    hide Sites, FixupWrites, PageWrites, Apply, Placed, PagesInFile;
    PlacedParts(lx, bases, lens, |was|);
    ApplyConcat(was, PageWrites(lx, file, bases), FixupWrites(lx, symbols, bases, Sites(lx)));
  }

  // ----- targets -----

  predicate IsBuiltIn(m: nat, name: string) {
    m < |GenApi.MODULES| && GenApi.MODULES[m].name == name
  }

  predicate IsExport(symbols: Symbols, name: string, ordinal: u32) {
    Dlls.Upper(name) in symbols.dlls && ordinal in symbols.dlls[Dlls.Upper(name)]
  }

  /** An import by ordinal: a thunk of a built-in module, a DLL's export, or the last stub. */
  ghost predicate ImportIsAt(symbols: Symbols, name: string, ordinal: u32, address: nat) {
    if exists m: nat :: IsBuiltIn(m, name) then
      exists m: nat :: IsBuiltIn(m, name) && address == 0x100_0000 + GenApi.MODULES[m].base + ordinal
    else if IsExport(symbols, name, ordinal) then address == symbols.dlls[Dlls.Upper(name)][ordinal]
    else address == 0x100_0000 + 16383
  }

  /** The name, with its length before it, stands at `offset`; a name that would not end there is empty. */
  predicate ProcNameIs(names: seq<byte>, offset: nat, name: string) {
    if offset < |names| && offset + 1 + names[offset] <= |names| then
      |name| == names[offset] && forall k :: 0 <= k < |name| ==> name[k] as int == names[offset + 1 + k]
    else name == ""
  }

  function ModuleAt(lx: LxFile, oneBased: u16): string {
    if oneBased == 0 || oneBased > |lx.importedModules| then "" else lx.importedModules[oneBased - 1]
  }

  /** What a target refers to is at that address. */
  ghost predicate Reaches(lx: LxFile, symbols: Symbols, bases: seq<u32>, t: FixupTarget, address: nat) {
    match t
    case Internal(n, offset) => 1 <= n <= |bases| && address == bases[n - 1] + offset
    case ExternalOrdinal(m, ordinal) => ImportIsAt(symbols, ModuleAt(lx, m), ordinal, address)
    case ExternalName(m, offset) =>
      exists name :: ProcNameIs(lx.importProcNames, offset, name) && NameReaches(symbols, ModuleAt(lx, m), name, address)
    case InternalEntry(_) => false
  }

  /** The name has an ordinal in the module's table, and that is at the address. */
  ghost predicate NameReaches(symbols: Symbols, moduleName: string, name: string, address: nat) {
    (moduleName, name) in symbols.ordinals && ImportIsAt(symbols, moduleName, symbols.ordinals[(moduleName, name)], address)
  }

  /** The thunk ranges of linker and loader are those of the ordinal table tool. */
  lemma ThunkBasesAgree(symbols: Symbols, k: nat, ordinal: u32)
    requires k < |GenApi.MODULES|
    ensures k < 11 ==> BuiltinBase(GenApi.MODULES[k].name) == Some(GenApi.MODULES[k].base)
    ensures LoaderResolve(symbols, GenApi.MODULES[k].name, ordinal) == 0x100_0000 + GenApi.MODULES[k].base + ordinal
  {
    if k == 0 {} else if k == 1 {} else if k == 2 {} else if k == 3 {} else if k == 4 {} else if k == 5 {} else if k == 6 {}
    else if k == 7 {} else if k == 8 {} else if k == 9 {} else if k == 10 {} else if k == 11 {} else {}
  }

  predicate KnownName(name: string) {
    BuiltinBase(name).Some? || name == "SO32DLL" || name == "TCP32DLL"
  }

  lemma KnownIsBuiltIn(name: string)
    requires KnownName(name)
    ensures exists m: nat :: IsBuiltIn(m, name)
  {
    hide BuiltinBase, KnownName;
    NameIndex(name);
    assert IsBuiltIn(GenApi.ModuleIndex(name), name);
  }

  /** Every name that the loader knows is in the list of modules. */
  lemma NameIndex(name: string)
    requires KnownName(name)
    ensures GenApi.ModuleIndex(name) < |GenApi.MODULES|
  {
    var i := GenApi.ModuleIndex(name);
    var ms := GenApi.MODULES;
    assert ms[0].name == "DOSCALLS" && ms[1].name == "QUECALLS" && ms[2].name == "PMWIN" && ms[3].name == "PMGPI";
    assert ms[4].name == "KBDCALLS" && ms[5].name == "VIOCALLS" && ms[6].name == "SESMGR" && ms[7].name == "NLS";
    assert ms[8].name == "MSG" && ms[9].name == "MDM" && ms[10].name == "UCONV" && ms[11].name == "SO32DLL";
    assert ms[12].name == "TCP32DLL";
  }

  /** Resolving gives the address the import is at. */
  lemma ImportResolves(symbols: Symbols, name: string, ordinal: u32, address: nat)
    ensures ImportIsAt(symbols, name, ordinal, address) <==> LoaderResolve(symbols, name, ordinal) == address
  {
    hide BuiltinBase, LoaderResolve;
    if m: nat :| IsBuiltIn(m, name) {
      forall k: nat | IsBuiltIn(k, name)
        ensures LoaderResolve(symbols, name, ordinal) == 0x100_0000 + GenApi.MODULES[k].base + ordinal
      {
        ThunkBasesAgree(symbols, k, ordinal);
      }
    } else {
      if KnownName(name) {
        KnownIsBuiltIn(name);
      }
      OtherResolves(symbols, name, ordinal);
    }
  }

  lemma OtherResolves(symbols: Symbols, name: string, ordinal: u32)
    requires !KnownName(name)
    ensures LoaderResolve(symbols, name, ordinal)
         == if IsExport(symbols, name, ordinal) then symbols.dlls[Dlls.Upper(name)][ordinal] else 0x100_0000 + 16383
  {
    hide BuiltinBase, Dlls.Upper;
  }

  lemma ProcNameDecides(lx: LxFile, offset: u32, name: string)
    ensures ProcNameIs(lx.importProcNames, offset, name)
       <==> name == if lx.GetProcName(offset).Some? then lx.GetProcName(offset).value else ""
  {
  }

  /** The loader finds the address a target is at; zero if there is none. */
  lemma TargetResolves(lx: LxFile, symbols: Symbols, bases: seq<u32>, t: FixupTarget, address: nat)
    requires address > 0
    ensures Reaches(lx, symbols, bases, t, address) <==> TargetAddr(lx, symbols, bases, t) == address
  {
    hide LoaderResolve, ImportIsAt, ProcNameIs, LxFile.GetProcName;
    match t
    case Internal(_, _) =>
    case ExternalOrdinal(m, ordinal) =>
      ImportResolves(symbols, ModuleAt(lx, m), ordinal, address);
    case ExternalName(m, offset) =>
      var name := if lx.GetProcName(offset).Some? then lx.GetProcName(offset).value else "";
      forall other
        ensures ProcNameIs(lx.importProcNames, offset, other) <==> other == name
      {
        ProcNameDecides(lx, offset, other);
      }
      assert ModuleName(lx, m) == ModuleAt(lx, m);
      assert ProcNameIs(lx.importProcNames, offset, name);
      if (ModuleAt(lx, m), name) in symbols.ordinals {
        ImportResolves(symbols, ModuleAt(lx, m), symbols.ordinals[(ModuleAt(lx, m), name)], address);
      }
    case InternalEntry(_) =>
  }

  // ----- bytes and sites in memory -----

  /** The loader writes nothing there: a kind of address it does not handle, or a target without an address. */
  ghost predicate Dead(lx: LxFile, symbols: Symbols, bases: seq<u32>, s: Site) {
    SiteSize(s.sourceType) == 0 || forall address :: address > 0 ==> !Reaches(lx, symbols, bases, s.target, address)
  }

  lemma DeadIsInactive(lx: LxFile, symbols: Symbols, bases: seq<u32>, s: Site)
    ensures Dead(lx, symbols, bases, s) <==> !Active(lx, symbols, bases, s)
  {
    hide Reaches, TargetAddr;
    forall address | address > 0
      ensures Reaches(lx, symbols, bases, s.target, address) <==> TargetAddr(lx, symbols, bases, s.target) == address
    {
      TargetResolves(lx, symbols, bases, s.target, address);
    }
    assert TargetAddr(lx, symbols, bases, s.target) > 0 ==> Reaches(lx, symbols, bases, s.target, TargetAddr(lx, symbols, bases, s.target));
  }

  /** Address `x` belongs to a site the loader writes. */
  ghost predicate InLiveSite(lx: LxFile, symbols: Symbols, bases: seq<u32>, x: int) {
    exists s :: s in Sites(lx) && s.obj < |bases| && !Dead(lx, symbols, bases, s)
                && bases[s.obj] + s.rel <= x < bases[s.obj] + s.rel + SiteSize(s.sourceType)
  }

  lemma NoLiveSite(lx: LxFile, symbols: Symbols, bases: seq<u32>, lens: seq<nat>, size: nat, x: nat)
    requires Placed(lx, bases, lens, size) && SitesIn(Sites(lx), |bases|) && !InLiveSite(lx, symbols, bases, x)
    ensures !Covered(FixupWrites(lx, symbols, bases, Sites(lx)), x)
  {
    hide Sites, Active, Dead, FixupWrite, PagesInside;
    var sites := Sites(lx);
    var ws := FixupWrites(lx, symbols, bases, sites);
    forall i | 0 <= i < |ws|
      ensures !(ws[i].addr <= x < ws[i].addr + |ws[i].data|)
    {
      assert sites[i] in Sites(lx);
      DeadIsInactive(lx, symbols, bases, sites[i]);
      WriteShape(lx, symbols, bases, lens, size, sites, i);
    }
  }

  /** A byte of a page that no written site covers is the file's. */
  lemma PageBytesAreTheFiles(now: seq<byte>, was: seq<byte>, lx: LxFile, file: seq<byte>, symbols: Symbols, bases: seq<u32>, lens: seq<nat>,
                             o: nat, p: nat, k: nat)
    requires LoadedAt(now, was, lx, file, symbols, bases, lens)
    requires HasPage(lx, o, p) && k < PageOf(lx, o, p).dataSize && !InLiveSite(lx, symbols, bases, bases[o] + p * 4096 + k)
    ensures var at := PlaceInFile(lx, PageOf(lx, o, p)) + k;
            bases[o] + p * 4096 + k < |now| && at < |file| && now[bases[o] + p * 4096 + k] == file[at]
  {
    hide Sites, FixupWrites, PageWrites, Apply, PagesInFile, InLiveSite, PlaceInFile, Admissible, PagesInside, WellPlaced;
    LoadIsBoth(now, was, lx, file, symbols, bases, lens);
    PageIsMapped(lx, file, bases, lens, was, |lx.objectTable|, o, p, k);
    NoLiveSite(lx, symbols, bases, lens, |was|, bases[o] + p * 4096 + k);
    ApplyOutside(AllPages(lx, file, bases, was), FixupWrites(lx, symbols, bases, Sites(lx)), bases[o] + p * 4096 + k);
  }

  /** What belongs to no page and no written site is left as it was. */
  lemma OtherMemoryStays(now: seq<byte>, was: seq<byte>, lx: LxFile, file: seq<byte>, symbols: Symbols, bases: seq<u32>, lens: seq<nat>, x: nat)
    requires LoadedAt(now, was, lx, file, symbols, bases, lens)
    requires x < |was| && !InPage(lx, bases, x) && !InLiveSite(lx, symbols, bases, x)
    ensures |now| == |was| && now[x] == was[x]
  {
    hide Sites, FixupWrites, PageWrites, Apply, PagesInFile, InLiveSite, Admissible, PagesInside, WellPlaced, InPage;
    LoadIsBoth(now, was, lx, file, symbols, bases, lens);
    OutsidePages(lx, file, bases, lens, was, |lx.objectTable|, x);
    NoLiveSite(lx, symbols, bases, lens, |was|, x);
    ApplyOutside(AllPages(lx, file, bases, was), FixupWrites(lx, symbols, bases, Sites(lx)), x);
  }

  /** Every site with a target points to it, in the way of its kind of address. */
  lemma SitesPoint(now: seq<byte>, was: seq<byte>, lx: LxFile, file: seq<byte>, symbols: Symbols, bases: seq<u32>, lens: seq<nat>,
                   s: Site, address: nat)
    requires LoadedAt(now, was, lx, file, symbols, bases, lens)
    requires s in Sites(lx) && SiteSize(s.sourceType) > 0 && Reaches(lx, symbols, bases, s.target, address) && address > 0
    ensures s.obj < |bases| && bases[s.obj] + s.rel + SiteSize(s.sourceType) <= |now|
    ensures PointsTo(now, s.sourceType, bases[s.obj] + s.rel, address)
  {
    hide Sites, PagesInFile, PagesInside, Admissible, WellPlaced, Fixed, Reaches, TargetAddr, PointsTo, AllPages;
    LoadIsBoth(now, was, lx, file, symbols, bases, lens);
    TargetResolves(lx, symbols, bases, s.target, address);
    var i :| 0 <= i < |Sites(lx)| && Sites(lx)[i] == s;
    SitesPointToTargets(AllPages(lx, file, bases, was), lx, symbols, bases, lens, Sites(lx), i);
  }

  /** A file whose objects lie apart inside memory is loaded if it holds its pages. */
  lemma PlacedFilesFit(lx: LxFile, file: seq<byte>, symbols: Symbols, bases: seq<u32>, lens: seq<nat>, size: nat)
    requires Placed(lx, bases, lens, size)
    ensures SitesIn(Sites(lx), |bases|)
    ensures PagesReadable(lx, file) <==> PagesInFile(lx, file)
    ensures PagesInFile(lx, file) ==> AllFit(LoadWrites(lx, file, symbols, bases), size)
  {
    hide Sites, PagesInFile, PagesInside, PagesReadable, FixupWrites, PageWrites, WellPlaced, Admissible, AllFit;
    PagesInFileIs(lx, file);
    SitesApart(lx, symbols, bases, lens, size, Sites(lx));
    if PagesInFile(lx, file) {
      PagesFit(lx, file, bases, lens, size, |lx.objectTable|);
      BothFit(PageWrites(lx, file, bases), FixupWrites(lx, symbols, bases, Sites(lx)), size);
    }
  }

  lemma BothFit(vs: seq<Write>, ws: seq<Write>, size: nat)
    requires AllFit(vs, size) && AllFit(ws, size)
    ensures AllFit(vs + ws, size)
  {
  }

  lemma {:induction false} PagesFit(lx: LxFile, file: seq<byte>, bases: seq<u32>, lens: seq<nat>, size: nat, n: nat)
    requires Placed(lx, bases, lens, size) && PagesInFile(lx, file) && n <= |lx.objectTable|
    ensures AllFit(PageWrites(lx, file, bases, n), size)
  {
    PlacedParts(lx, bases, lens, size);
    hide Sites, PagesInFile, PagesInside, WellPlaced, Admissible, ObjectPageWrites;
    if n > 0 {
      PagesFit(lx, file, bases, lens, size, n - 1);
      ObjectPagesApart(lx, file, bases, lens, size, n - 1);
      InsideMemory(bases, lens, size, n - 1);
      BothFit(PageWrites(lx, file, bases, n - 1), ObjectPageWrites(lx, file, bases, n - 1), size);
    }
  }
}
