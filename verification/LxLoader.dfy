/**
 * Mapping pages and applying fixups (src/loader/lx_loader.rs, `load` and `apply_fixups`).
 *
 * Both loops amount to a list of memory writes; the methods are proved to perform exactly
 * that list, and the properties are proved about the lists.
 */
module LxLoader {
  import opened Bytes
  import opened Wrappers
  import opened GuestMem
  import opened LxFormat
  import opened Imports

  const PAGE := 4096
  const TILED_SEL_START_INDEX := 6

  // ----- fixup sites -----

  /** One source offset of one record: `rel` is the offset within object `obj`. */
  datatype Site = Site(obj: nat, rel: nat, sourceType: byte, target: FixupTarget)

  /** First page of an object: its one-based map index, saturating at zero. */
  function FirstPage(o: ObjectEntry): nat {
    if o.pageMapIndex == 0 then 0 else o.pageMapIndex - 1
  }

  function OffsetSites(obj: nat, page: nat, r: FixupRecord, n: nat): seq<Site>
    requires n <= |r.sourceOffsets|
  {
    seq(n, i requires 0 <= i < n => Site(obj, page * PAGE + r.sourceOffsets[i], r.sourceType % 0x10, r.target))
  }

  function RecordSites(obj: nat, page: nat, rs: seq<FixupRecord>, n: nat): seq<Site>
    requires n <= |rs|
  {
    if n == 0 then []
    else RecordSites(obj, page, rs, n - 1) + OffsetSites(obj, page, rs[n - 1], |rs[n - 1].sourceOffsets|)
  }

  function RecordsOn(lx: LxFile, obj: nat, page: nat): seq<FixupRecord>
    requires obj < |lx.objectTable|
  {
    var idx := FirstPage(lx.objectTable[obj]) + page;
    if idx < |lx.fixupsByPage| then lx.fixupsByPage[idx] else []
  }

  function PageSites(lx: LxFile, obj: nat, n: nat): seq<Site>
    requires obj < |lx.objectTable|
  {
    if n == 0 then []
    else
      var rs := RecordsOn(lx, obj, n - 1);
      PageSites(lx, obj, n - 1) + RecordSites(obj, n - 1, rs, |rs|)
  }

  /** The sites of the first `n` objects, in the order the loader visits them. */
  function Sites(lx: LxFile, n: nat := |lx.objectTable|): (r: seq<Site>)
    requires n <= |lx.objectTable|
  {
    if n == 0 then [] else Sites(lx, n - 1) + PageSites(lx, n - 1, lx.objectTable[n - 1].pageCount)
  }

  // ----- what one site writes -----

  function ModuleName(lx: LxFile, oneBased: u16): string {
    if 1 <= oneBased <= |lx.importedModules| then lx.importedModules[oneBased - 1] else ""
  }

  /** The target as a 64-bit address; zero means the record is skipped. */
  function TargetAddr(lx: LxFile, symbols: Symbols, bases: seq<u32>, t: FixupTarget): nat {
    match t
    case Internal(objectNum, offset) =>
      if 1 <= objectNum <= |bases| then bases[objectNum - 1] + offset else 0
    case ExternalOrdinal(moduleOrdinal, procOrdinal) =>
      LoaderResolve(symbols, ModuleName(lx, moduleOrdinal), procOrdinal)
    case ExternalName(moduleOrdinal, nameOffset) =>
      var name := lx.GetProcName(nameOffset);
      LoaderResolveByName(symbols, ModuleName(lx, moduleOrdinal), if name.Some? then name.value else "")
    case InternalEntry(_) => 0
  }

  /** Selector of the data tile that holds flat address `target`. */
  function TileSelector(target: nat): u16 {
    (TILED_SEL_START_INDEX + target / TWO16 % TWO32) * 8 % TWO16
  }

  /** The bytes a fixup of this source type stores at flat address `at`. */
  function FixupBytes(sourceType: byte, target: nat, at: nat): seq<byte> {
    match sourceType
    case 0x07 => U32(target % TWO32)
    case 0x08 => U32((target - (at + 4)) % TWO32)
    case 0x02 => U16(target % TWO16) + U16(TileSelector(target))
    case 0x03 => U16(target % TWO16) + U16(TileSelector(target))
    case 0x05 => U16(target % TWO16)
    case 0x06 => U32(target % TWO32) + U16(0x08)
    case _ => []
  }

  function FixupWrite(lx: LxFile, symbols: Symbols, bases: seq<u32>, s: Site): Write
    requires s.obj < |bases|
  {
    var target := TargetAddr(lx, symbols, bases, s.target);
    var at := bases[s.obj] + s.rel;
    if target == 0 then Write(0, []) else Write(at % TWO32, FixupBytes(s.sourceType, target, at))
  }

  predicate SitesIn(sites: seq<Site>, n: nat) {
    forall i :: 0 <= i < |sites| ==> sites[i].obj < n
  }

  function FixupWrites(lx: LxFile, symbols: Symbols, bases: seq<u32>, sites: seq<Site>): (ws: seq<Write>)
    requires SitesIn(sites, |bases|)
    ensures |ws| == |sites|
  {
    seq(|sites|, i requires 0 <= i < |sites| => FixupWrite(lx, symbols, bases, sites[i]))
  }

  predicate AllFit(ws: seq<Write>, size: nat) {
    forall i :: 0 <= i < |ws| ==> Fits(ws[i], size)
  }

  lemma {:induction false} PageSitesObject(lx: LxFile, obj: nat, n: nat)
    requires obj < |lx.objectTable|
    ensures forall i :: 0 <= i < |PageSites(lx, obj, n)| ==> PageSites(lx, obj, n)[i].obj == obj
  {
    if n > 0 {
      PageSitesObject(lx, obj, n - 1);
      var rs := RecordsOn(lx, obj, n - 1);
      RecordSitesObject(obj, n - 1, rs, |rs|);
    }
  }

  lemma {:induction false} RecordSitesObject(obj: nat, page: nat, rs: seq<FixupRecord>, n: nat)
    requires n <= |rs|
    ensures forall i :: 0 <= i < |RecordSites(obj, page, rs, n)| ==> RecordSites(obj, page, rs, n)[i].obj == obj
  {
    if n > 0 {
      RecordSitesObject(obj, page, rs, n - 1);
    }
  }

  lemma {:induction false} SitesAreIn(lx: LxFile, n: nat)
    requires n <= |lx.objectTable|
    ensures SitesIn(Sites(lx, n), n)
  {
    if n > 0 {
      SitesAreIn(lx, n - 1);
      PageSitesObject(lx, n - 1, lx.objectTable[n - 1].pageCount);
    }
  }

  // ----- applying fixups -----

  /** Store at one site; false where the original panics on an access out of bounds. */
  method WriteSite(mem: GuestMemory, sourceType: byte, target: nat, at: nat) returns (ok: bool)
    requires mem.bytes.Length <= TWO32
    modifies mem.bytes
    ensures ok <==> Fits(Write(at % TWO32, FixupBytes(sourceType, target, at)), mem.bytes.Length)
    ensures ok ==> mem.Contents() == Store(old(mem.Contents()), Write(at % TWO32, FixupBytes(sourceType, target, at)))
  {
    var addr := at % TWO32;
    ghost var was := mem.Contents();
    match sourceType
    case 0x07 =>
      ok := mem.WriteBytes(addr, U32(target % TWO32));
    case 0x08 =>
      ok := mem.WriteBytes(addr, U32((target - (at + 4)) % TWO32));
    case 0x02 =>
      ok := WritePair(mem, addr, U16(target % TWO16), U16(TileSelector(target)));
    case 0x03 =>
      ok := WritePair(mem, addr, U16(target % TWO16), U16(TileSelector(target)));
    case 0x05 =>
      ok := mem.WriteBytes(addr, U16(target % TWO16));
    case 0x06 =>
      ok := WritePair(mem, addr, U32(target % TWO32), U16(0x08));
    case _ =>
      ok := true;
  }

  /** Two consecutive guest writes, as for a far pointer. */
  method WritePair(mem: GuestMemory, addr: nat, x: seq<byte>, y: seq<byte>) returns (ok: bool)
    requires |x| > 0 && |y| > 0
    modifies mem.bytes
    ensures ok <==> addr + |x + y| <= mem.bytes.Length
    ensures ok ==> mem.Contents() == Store(old(mem.Contents()), Write(addr, x + y))
  {
    ghost var was := mem.Contents();
    ok := mem.WriteBytes(addr, x);
    if ok {
      ok := mem.WriteBytes(addr + |x|, y);
      if ok {
        StoreAdjacent(was, addr, x, y);
      }
    }
  }

  /** `now` is `was` with the writes `ws` performed, all of them in bounds. */
  ghost predicate Ran(now: seq<byte>, was: seq<byte>, ws: seq<Write>) {
    now == Apply(was, ws) && AllFit(ws, |was|)
  }

  lemma ApplyPush(was: seq<byte>, ws: seq<Write>, w: Write)
    ensures Apply(was, ws + [w]) == Store(Apply(was, ws), w)
    ensures AllFit(ws + [w], |was|) <==> AllFit(ws, |was|) && Fits(w, |was|)
  {
    assert (ws + [w])[..|ws|] == ws;
    assert (ws + [w])[|ws|] == w;
    if AllFit(ws + [w], |was|) {
      assert forall i :: 0 <= i < |ws| ==> ws[i] == (ws + [w])[i];
    }
  }

  lemma RanNothing(was: seq<byte>)
    ensures Ran(was, was, [])
  {
  }

  lemma RanPush(was: seq<byte>, mid: seq<byte>, now: seq<byte>, ws: seq<Write>, i: nat)
    requires i < |ws| && Ran(mid, was, ws[..i]) && Fits(ws[i], |was|) && now == Store(mid, ws[i])
    ensures Ran(now, was, ws[..i + 1])
  {
    ApplyPush(was, ws[..i], ws[i]);
    assert ws[..i + 1] == ws[..i] + [ws[i]];
  }

  lemma RanConcat(was: seq<byte>, mid: seq<byte>, now: seq<byte>, vs: seq<Write>, ws: seq<Write>)
    requires Ran(mid, was, vs) && Ran(now, mid, ws)
    ensures Ran(now, was, vs + ws)
  {
    ApplyConcat(was, vs, ws);
  }

  lemma MisfitStays(vs: seq<Write>, ws: seq<Write>, rest: seq<Write>, size: nat)
    requires !AllFit(ws, size)
    ensures !AllFit(vs + ws + rest, size)
  {
    var i :| 0 <= i < |ws| && !Fits(ws[i], size);
    assert (vs + ws + rest)[|vs| + i] == ws[i];
  }

  method ApplySite(mem: GuestMemory, lx: LxFile, symbols: Symbols, bases: seq<u32>, s: Site, target: nat) returns (ok: bool)
    requires mem.bytes.Length <= TWO32
    requires s.obj < |bases| && target == TargetAddr(lx, symbols, bases, s.target)
    modifies mem.bytes
    ensures ok <==> Fits(FixupWrite(lx, symbols, bases, s), mem.bytes.Length)
    ensures ok ==> mem.Contents() == Store(old(mem.Contents()), FixupWrite(lx, symbols, bases, s))
  {
    if target == 0 {
      return true;
    }
    ok := WriteSite(mem, s.sourceType, target, bases[s.obj] + s.rel);
  }

  method ApplyRecord(mem: GuestMemory, lx: LxFile, symbols: Symbols, bases: seq<u32>, obj: nat, page: nat, r: FixupRecord)
    returns (ok: bool)
    requires obj < |bases| && mem.bytes.Length <= TWO32
    modifies mem.bytes
    ensures var ws := FixupWrites(lx, symbols, bases, OffsetSites(obj, page, r, |r.sourceOffsets|));
            if ok then Ran(mem.Contents(), old(mem.Contents()), ws) else !AllFit(ws, mem.bytes.Length)
  {
    hide Ran, FixupWrite, TargetAddr, Store;
    var target := TargetAddr(lx, symbols, bases, r.target);
    ghost var ws := FixupWrites(lx, symbols, bases, OffsetSites(obj, page, r, |r.sourceOffsets|));
    ghost var was := mem.Contents();
    RanNothing(was);
    for i := 0 to |r.sourceOffsets|
      invariant Ran(mem.Contents(), was, ws[..i])
    {
      var s := Site(obj, page * PAGE + r.sourceOffsets[i], r.sourceType % 0x10, r.target);
      ghost var mid := mem.Contents();
      assert ws[i] == FixupWrite(lx, symbols, bases, s);
      ok := ApplySite(mem, lx, symbols, bases, s, target);
      if !ok {
        assert !Fits(ws[i], mem.bytes.Length);
        return;
      }
      RanPush(was, mid, mem.Contents(), ws, i);
    }
    assert ws[..|r.sourceOffsets|] == ws;
    ok := true;
  }

  lemma FixupWritesConcat(lx: LxFile, symbols: Symbols, bases: seq<u32>, xs: seq<Site>, ys: seq<Site>)
    requires SitesIn(xs, |bases|) && SitesIn(ys, |bases|)
    ensures SitesIn(xs + ys, |bases|)
    ensures FixupWrites(lx, symbols, bases, xs + ys)
         == FixupWrites(lx, symbols, bases, xs) + FixupWrites(lx, symbols, bases, ys)
  {
  }

  lemma {:induction false} RecordSitesPrefix(obj: nat, page: nat, rs: seq<FixupRecord>, i: nat, n: nat)
    requires i <= n <= |rs|
    ensures RecordSites(obj, page, rs, i) <= RecordSites(obj, page, rs, n)
  {
    if i < n {
      RecordSitesPrefix(obj, page, rs, i, n - 1);
    }
  }

  lemma {:induction false} PageSitesPrefix(lx: LxFile, obj: nat, i: nat, n: nat)
    requires obj < |lx.objectTable| && i <= n
    ensures PageSites(lx, obj, i) <= PageSites(lx, obj, n)
    decreases n
  {
    if i < n {
      PageSitesPrefix(lx, obj, i, n - 1);
    }
  }

  lemma {:induction false} SitesPrefix(lx: LxFile, i: nat, n: nat)
    requires i <= n <= |lx.objectTable|
    ensures Sites(lx, i) <= Sites(lx, n)
  {
    if i < n {
      SitesPrefix(lx, i, n - 1);
    }
  }

  /** A misfit in a prefix of the sites is a misfit of all of them. */
  lemma PrefixMisfit(lx: LxFile, symbols: Symbols, bases: seq<u32>, xs: seq<Site>, ys: seq<Site>, size: nat)
    requires xs <= ys && SitesIn(ys, |bases|) && SitesIn(xs, |bases|)
    requires !AllFit(FixupWrites(lx, symbols, bases, xs), size)
    ensures !AllFit(FixupWrites(lx, symbols, bases, ys), size)
  {
    var i :| 0 <= i < |xs| && !Fits(FixupWrites(lx, symbols, bases, xs)[i], size);
    assert FixupWrites(lx, symbols, bases, ys)[i] == FixupWrites(lx, symbols, bases, xs)[i];
  }

  /** After the sites `xs` came the part `ys`: either all of `xs + ys` is done, or one does not fit. */
  lemma PartStep(was: seq<byte>, mid: seq<byte>, now: seq<byte>, lx: LxFile, symbols: Symbols, bases: seq<u32>,
                 xs: seq<Site>, ys: seq<Site>, ok: bool)
    requires SitesIn(xs, |bases|) && SitesIn(ys, |bases|)
    requires Ran(mid, was, FixupWrites(lx, symbols, bases, xs))
    requires if ok then Ran(now, mid, FixupWrites(lx, symbols, bases, ys))
             else !AllFit(FixupWrites(lx, symbols, bases, ys), |was|)
    ensures SitesIn(xs + ys, |bases|)
    ensures if ok then Ran(now, was, FixupWrites(lx, symbols, bases, xs + ys))
            else !AllFit(FixupWrites(lx, symbols, bases, xs + ys), |was|)
  {
    var vs, ws := FixupWrites(lx, symbols, bases, xs), FixupWrites(lx, symbols, bases, ys);
    FixupWritesConcat(lx, symbols, bases, xs, ys);
    if ok {
      RanConcat(was, mid, now, vs, ws);
    } else {
      MisfitStays(vs, ws, [], |was|);
      assert vs + ws + [] == vs + ws;
    }
  }

  method ApplyPage(mem: GuestMemory, lx: LxFile, symbols: Symbols, bases: seq<u32>, obj: nat, page: nat, rs: seq<FixupRecord>)
    returns (ok: bool)
    requires obj < |bases| && mem.bytes.Length <= TWO32
    modifies mem.bytes
    ensures SitesIn(RecordSites(obj, page, rs, |rs|), |bases|)
    ensures var ws := FixupWrites(lx, symbols, bases, RecordSites(obj, page, rs, |rs|));
            if ok then Ran(mem.Contents(), old(mem.Contents()), ws) else !AllFit(ws, mem.bytes.Length)
  {
    hide Ran, AllFit, FixupWrites, OffsetSites;
    ghost var was := mem.Contents();
    RecordSitesObject(obj, page, rs, |rs|);
    NoSites(lx, symbols, bases, was);
    for i := 0 to |rs|
      invariant SitesIn(RecordSites(obj, page, rs, i), |bases|)
      invariant Ran(mem.Contents(), was, FixupWrites(lx, symbols, bases, RecordSites(obj, page, rs, i)))
    {
      ghost var mid := mem.Contents();
      ghost var before, part := RecordSites(obj, page, rs, i), OffsetSites(obj, page, rs[i], |rs[i].sourceOffsets|);
      RecordSitesObject(obj, page, rs, i + 1);
      assert RecordSites(obj, page, rs, i + 1) == before + part;
      SuffixIn(before, part, |bases|);
      ok := ApplyRecord(mem, lx, symbols, bases, obj, page, rs[i]);
      PartStep(was, mid, mem.Contents(), lx, symbols, bases, before, part, ok);
      if !ok {
        RecordSitesPrefix(obj, page, rs, i + 1, |rs|);
        PrefixMisfit(lx, symbols, bases, before + part, RecordSites(obj, page, rs, |rs|), |was|);
        return;
      }
    }
    ok := true;
  }

  lemma SuffixIn(xs: seq<Site>, ys: seq<Site>, n: nat)
    requires SitesIn(xs + ys, n)
    ensures SitesIn(xs, n) && SitesIn(ys, n)
  {
    forall i | 0 <= i < |ys|
      ensures ys[i].obj < n
    {
      assert (xs + ys)[|xs| + i] == ys[i];
    }
    forall i | 0 <= i < |xs|
      ensures xs[i].obj < n
    {
      assert (xs + ys)[i] == xs[i];
    }
  }

  lemma NoSites(lx: LxFile, symbols: Symbols, bases: seq<u32>, was: seq<byte>)
    ensures SitesIn([], |bases|) && Ran(was, was, FixupWrites(lx, symbols, bases, []))
  {
  }

  method ApplyObject(mem: GuestMemory, lx: LxFile, symbols: Symbols, bases: seq<u32>, obj: nat) returns (ok: bool)
    requires obj < |bases| == |lx.objectTable| && mem.bytes.Length <= TWO32
    modifies mem.bytes
    ensures SitesIn(PageSites(lx, obj, lx.objectTable[obj].pageCount), |bases|)
    ensures var ws := FixupWrites(lx, symbols, bases, PageSites(lx, obj, lx.objectTable[obj].pageCount));
            if ok then Ran(mem.Contents(), old(mem.Contents()), ws) else !AllFit(ws, mem.bytes.Length)
  {
    hide Ran, AllFit, FixupWrites, RecordSites;
    ghost var was := mem.Contents();
    var pages := lx.objectTable[obj].pageCount;
    var first := FirstPage(lx.objectTable[obj]);
    PageSitesObject(lx, obj, pages);
    NoSites(lx, symbols, bases, was);
    for p := 0 to pages
      invariant SitesIn(PageSites(lx, obj, p), |bases|)
      invariant Ran(mem.Contents(), was, FixupWrites(lx, symbols, bases, PageSites(lx, obj, p)))
    {
      if first + p >= |lx.fixupsByPage| {
        NoMorePages(lx, obj, p, pages);
        return true;
      }
      ghost var mid := mem.Contents();
      var rs := lx.fixupsByPage[first + p];
      ghost var before, part := PageSites(lx, obj, p), RecordSites(obj, p, rs, |rs|);
      assert PageSites(lx, obj, p + 1) == before + part;
      ok := ApplyPage(mem, lx, symbols, bases, obj, p, rs);
      PartStep(was, mid, mem.Contents(), lx, symbols, bases, before, part, ok);
      if !ok {
        PageSitesPrefix(lx, obj, p + 1, pages);
        PrefixMisfit(lx, symbols, bases, before + part, PageSites(lx, obj, pages), |was|);
        return;
      }
    }
    ok := true;
  }

  lemma {:induction false} NoMorePages(lx: LxFile, obj: nat, p: nat, n: nat)
    requires obj < |lx.objectTable| && p <= n
    requires FirstPage(lx.objectTable[obj]) + p >= |lx.fixupsByPage|
    ensures PageSites(lx, obj, n) == PageSites(lx, obj, p)
    decreases n
  {
    if p < n {
      NoMorePages(lx, obj, p, n - 1);
      assert RecordsOn(lx, obj, n - 1) == [];
      assert PageSites(lx, obj, n - 1) + [] == PageSites(lx, obj, n - 1);
    }
  }

  /**
   * `apply_fixups`: performs the writes of all sites, in order.  A false result stands for
   * the panic on an access outside guest memory.
   */
  method ApplyFixups(mem: GuestMemory, lx: LxFile, symbols: Symbols, bases: seq<u32>) returns (ok: bool)
    requires |bases| == |lx.objectTable| && mem.bytes.Length <= TWO32
    modifies mem.bytes
    ensures SitesIn(Sites(lx), |bases|)
    ensures var ws := FixupWrites(lx, symbols, bases, Sites(lx));
            if ok then Ran(mem.Contents(), old(mem.Contents()), ws) else !AllFit(ws, mem.bytes.Length)
  {
    hide Ran, AllFit, FixupWrites, PageSites;
    ghost var was := mem.Contents();
    SitesAreIn(lx, |bases|);
    NoSites(lx, symbols, bases, was);
    for o := 0 to |bases|
      invariant SitesIn(Sites(lx, o), |bases|)
      invariant Ran(mem.Contents(), was, FixupWrites(lx, symbols, bases, Sites(lx, o)))
    {
      ghost var mid := mem.Contents();
      ghost var before, part := Sites(lx, o), PageSites(lx, o, lx.objectTable[o].pageCount);
      assert Sites(lx, o + 1) == before + part;
      ok := ApplyObject(mem, lx, symbols, bases, o);
      PartStep(was, mid, mem.Contents(), lx, symbols, bases, before, part, ok);
      if !ok {
        SitesPrefix(lx, o + 1, |bases|);
        PrefixMisfit(lx, symbols, bases, before + part, Sites(lx), |was|);
        return;
      }
    }
    ok := true;
  }

  // ----- mapping pages -----

  function Shifted(v: nat, bits: nat): nat
    decreases bits
  {
    if bits == 0 then v else 2 * Shifted(v, bits - 1)
  }

  function PageOffset(lx: LxFile, e: PageEntry): nat
    requires lx.header.Valid()
  {
    lx.header.DataPagesOffset() + Shifted(e.dataOffset, lx.header.PageOffsetShift())
  }

  /** The bytes of a page in the file; none if the file is too short. */
  function PageBytes(lx: LxFile, file: seq<byte>, e: PageEntry): seq<byte>
    requires lx.header.Valid()
  {
    var at := PageOffset(lx, e);
    if at + e.dataSize <= |file| then file[at..at + e.dataSize] else []
  }

  predicate PageReadable(lx: LxFile, file: seq<byte>, e: PageEntry)
    requires lx.header.Valid()
  {
    e.dataSize == 0 || PageOffset(lx, e) + e.dataSize <= |file|
  }

  /** Pages of object `obj` that are in the page map, up to `n` of them. */
  function PagesOf(lx: LxFile, obj: nat): nat
    requires obj < |lx.objectTable|
  {
    var o := lx.objectTable[obj];
    if FirstPage(o) + o.pageCount <= |lx.pageMap| then o.pageCount
    else if FirstPage(o) <= |lx.pageMap| then |lx.pageMap| - FirstPage(o)
    else 0
  }

  function EntryOf(lx: LxFile, obj: nat, page: nat): PageEntry
    requires obj < |lx.objectTable| && page < PagesOf(lx, obj)
  {
    lx.pageMap[FirstPage(lx.objectTable[obj]) + page]
  }

  function ObjectPageWrites(lx: LxFile, file: seq<byte>, bases: seq<u32>, obj: nat): (ws: seq<Write>)
    requires lx.header.Valid() && obj < |lx.objectTable| == |bases|
    ensures |ws| == PagesOf(lx, obj)
  {
    seq(PagesOf(lx, obj), p requires 0 <= p < PagesOf(lx, obj) =>
      Write((bases[obj] + p * PAGE) % TWO32, PageBytes(lx, file, EntryOf(lx, obj, p))))
  }

  function PageWrites(lx: LxFile, file: seq<byte>, bases: seq<u32>, n: nat := |lx.objectTable|): seq<Write>
    requires lx.header.Valid() && n <= |lx.objectTable| == |bases|
  {
    if n == 0 then [] else PageWrites(lx, file, bases, n - 1) + ObjectPageWrites(lx, file, bases, n - 1)
  }

  predicate ObjectReadable(lx: LxFile, file: seq<byte>, obj: nat)
    requires lx.header.Valid() && obj < |lx.objectTable|
  {
    forall p :: 0 <= p < PagesOf(lx, obj) ==> PageReadable(lx, file, EntryOf(lx, obj, p))
  }

  predicate PagesReadable(lx: LxFile, file: seq<byte>)
    requires lx.header.Valid()
  {
    forall obj :: 0 <= obj < |lx.objectTable| ==> ObjectReadable(lx, file, obj)
  }

  /** How `load` ends: normally, with a read error, or with a panic on an access out of bounds. */
  datatype Outcome = Loaded | ReadError | OutOfBounds

  method MapPage(mem: GuestMemory, lx: LxFile, file: seq<byte>, e: PageEntry, target: u32) returns (r: Outcome)
    requires lx.header.Valid()
    modifies mem.bytes
    ensures match r
            case Loaded => PageReadable(lx, file, e) && Fits(Write(target, PageBytes(lx, file, e)), mem.bytes.Length)
                           && mem.Contents() == Store(old(mem.Contents()), Write(target, PageBytes(lx, file, e)))
            case ReadError => !PageReadable(lx, file, e)
            case OutOfBounds => PageReadable(lx, file, e) ==> !Fits(Write(target, PageBytes(lx, file, e)), mem.bytes.Length)
  {
    if e.dataSize > 0 {
      if target + e.dataSize > mem.bytes.Length {
        return OutOfBounds;
      }
      if PageOffset(lx, e) + e.dataSize > |file| {
        return ReadError;
      }
      var ok := mem.WriteBytes(target, PageBytes(lx, file, e));
    }
    return Loaded;
  }

  method MapObject(mem: GuestMemory, lx: LxFile, file: seq<byte>, bases: seq<u32>, obj: nat) returns (r: Outcome)
    requires lx.header.Valid() && obj < |lx.objectTable| == |bases|
    modifies mem.bytes
    ensures var ws := ObjectPageWrites(lx, file, bases, obj);
            match r
            case Loaded => Ran(mem.Contents(), old(mem.Contents()), ws) && ObjectReadable(lx, file, obj)
            case ReadError => !ObjectReadable(lx, file, obj)
            case OutOfBounds => !AllFit(ws, mem.bytes.Length) || !ObjectReadable(lx, file, obj)
  {
    hide PageReadable, PageBytes, Ran, Fits;
    var o := lx.objectTable[obj];
    ghost var ws := ObjectPageWrites(lx, file, bases, obj);
    ghost var was := mem.Contents();
    RanNothing(was);
    for p := 0 to o.pageCount
      invariant p <= PagesOf(lx, obj)
      invariant Ran(mem.Contents(), was, ws[..p])
      invariant forall q :: 0 <= q < p ==> PageReadable(lx, file, EntryOf(lx, obj, q))
    {
      var idx := FirstPage(o) + p;
      if idx >= |lx.pageMap| {
        break;
      }
      var e := lx.pageMap[idx];
      assert e == EntryOf(lx, obj, p);
      assert ws[p] == Write((bases[obj] + p * PAGE) % TWO32, PageBytes(lx, file, e));
      ghost var mid := mem.Contents();
      r := MapPage(mem, lx, file, e, (bases[obj] + p * PAGE) % TWO32);
      if r != Loaded {
        return;
      }
      RanPush(was, mid, mem.Contents(), ws, p);
    }
    assert ws[..PagesOf(lx, obj)] == ws;
    return Loaded;
  }

  lemma {:induction false} PageWritesPrefix(lx: LxFile, file: seq<byte>, bases: seq<u32>, i: nat, n: nat)
    requires lx.header.Valid() && i <= n <= |lx.objectTable| == |bases|
    ensures PageWrites(lx, file, bases, i) <= PageWrites(lx, file, bases, n)
  {
    if i < n {
      PageWritesPrefix(lx, file, bases, i, n - 1);
    }
  }

  method MapPages(mem: GuestMemory, lx: LxFile, file: seq<byte>, bases: seq<u32>) returns (r: Outcome)
    requires lx.header.Valid() && |bases| == |lx.objectTable|
    modifies mem.bytes
    ensures var ws := PageWrites(lx, file, bases);
            match r
            case Loaded => Ran(mem.Contents(), old(mem.Contents()), ws) && PagesReadable(lx, file)
            case ReadError => !PagesReadable(lx, file)
            case OutOfBounds => !AllFit(ws, mem.bytes.Length) || !PagesReadable(lx, file)
  {
    hide Ran, AllFit, ObjectPageWrites, ObjectReadable;
    ghost var was := mem.Contents();
    RanNothing(was);
    for o := 0 to |bases|
      invariant Ran(mem.Contents(), was, PageWrites(lx, file, bases, o))
      invariant forall obj :: 0 <= obj < o ==> ObjectReadable(lx, file, obj)
    {
      ghost var mid := mem.Contents();
      ghost var before, part := PageWrites(lx, file, bases, o), ObjectPageWrites(lx, file, bases, o);
      assert PageWrites(lx, file, bases, o + 1) == before + part;
      r := MapObject(mem, lx, file, bases, o);
      if r == Loaded {
        RanConcat(was, mid, mem.Contents(), before, part);
      } else {
        if !AllFit(part, mem.bytes.Length) {
          PageWritesPrefix(lx, file, bases, o + 1, |bases|);
          ghost var rest := PageWrites(lx, file, bases)[|before + part|..];
          assert PageWrites(lx, file, bases) == before + part + rest;
          MisfitStays(before, part, rest, mem.bytes.Length);
        }
        return;
      }
    }
    return Loaded;
  }

  function PreferredBases(lx: LxFile): (bs: seq<u32>)
    ensures |bs| == |lx.objectTable|
  {
    seq(|lx.objectTable|, i requires 0 <= i < |lx.objectTable| => lx.objectTable[i].base)
  }

  /** All writes of a load at the given bases. */
  function LoadWrites(lx: LxFile, file: seq<byte>, symbols: Symbols, bases: seq<u32>): seq<Write>
    requires lx.header.Valid() && |bases| == |lx.objectTable| && SitesIn(Sites(lx), |bases|)
  {
    PageWrites(lx, file, bases) + FixupWrites(lx, symbols, bases, Sites(lx))
  }

  /** `load`: maps the pages at the preferred bases, then applies the fixups there. */
  method Load(mem: GuestMemory, lx: LxFile, file: seq<byte>, symbols: Symbols) returns (r: Outcome)
    requires lx.header.Valid() && mem.bytes.Length <= TWO32
    modifies mem.bytes
    ensures SitesIn(Sites(lx), |lx.objectTable|)
    ensures var ws := LoadWrites(lx, file, symbols, PreferredBases(lx));
            match r
            case Loaded => Ran(mem.Contents(), old(mem.Contents()), ws) && PagesReadable(lx, file)
            case _ => !AllFit(ws, mem.bytes.Length) || !PagesReadable(lx, file)
  {
    hide Ran, AllFit, FixupWrites, PageWrites, Sites;
    ghost var was := mem.Contents();
    var bases := PreferredBases(lx);
    SitesAreIn(lx, |bases|);
    r := MapPages(mem, lx, file, bases);
    ghost var mid := mem.Contents();
    ghost var pages, fixups := PageWrites(lx, file, bases), FixupWrites(lx, symbols, bases, Sites(lx));
    if r == Loaded {
      var ok := ApplyFixups(mem, lx, symbols, bases);
      if ok {
        RanConcat(was, mid, mem.Contents(), pages, fixups);
      } else {
        MisfitStays(pages, fixups, [], |was|);
        assert pages + fixups + [] == pages + fixups;
        r := OutOfBounds;
      }
    } else if !AllFit(pages, |was|) {
      MisfitStays([], pages, fixups, |was|);
      assert [] + pages + fixups == pages + fixups;
    }
  }
}
