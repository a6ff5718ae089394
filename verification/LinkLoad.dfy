/**
 * Link, write, parse, load: what ends up in guest memory.
 *
 * Loading a linked file at its preferred bases leaves the linker's page-padded, patched
 * buffers in memory, except that each absolute relocation site holds its bare target:
 * the file format has no room for an addend.
 */
module LinkLoad {
  import opened Bytes
  import opened Wrappers
  import opened GuestMem
  import opened LinkerState
  import opened Imports
  import opened LxWriter
  import opened LxRoundTrip
  import F = LxFormat
  import P = LxParser
  import L = LxLoader

  const CODE_LIMIT := 0x5_0000
  const DATA_LIMIT := 0x1_0000
  const BSS_LIMIT := 0xF000_0000
  const MEMORY_TOP := 0x8_0000

  const BASES: seq<u32> := [CODE_OBJECT_BASE, DATA_OBJECT_BASE, STACK_OBJECT_BASE]

  // ----- what is asked of the input -----

  function Buffer(env: Env, isCode: bool): seq<byte> {
    if isCode then env.state.code.data else env.state.data.data
  }

  predicate InSection(env: Env, x: Item) {
    x.at + 4 <= |Buffer(env, x.isCode)|
  }

  predicate SitesApart(items: seq<Item>) {
    forall i, j :: 0 <= i < j < |items| ==>
      items[i].isCode != items[j].isCode || items[i].at + 4 <= items[j].at || items[j].at + 4 <= items[i].at
  }

  /** An import from one of the eleven modules the linker knows. */
  predicate KnownImport(imp: Import) {
    var base := BuiltinBase(imp.moduleName);
    base.Some? && MAGIC_API_BASE + base.value + imp.ordinal < TWO32
  }

  predicate ImportsKnown(env: Env, items: seq<Item>) {
    forall i :: 0 <= i < |items| ==>
      var m := MeaningOf(env, items[i].reloc.target);
      m.Imported? ==> KnownImport(m.imp)
  }

  predicate AllInSection(env: Env, items: seq<Item>) {
    forall i :: 0 <= i < |items| ==> InSection(env, items[i])
  }

  predicate SizesFit(s: State) {
    |s.code.data| <= CODE_LIMIT && |s.data.data| <= DATA_LIMIT && s.data.bssSize <= BSS_LIMIT
  }

  predicate Linkable(env: Env) {
    && env.Valid()
    && SizesFit(env.state)
    && AllInSection(env, Items(env))
    && SitesApart(Items(env))
    && ImportsKnown(env, Items(env))
  }

  // ----- the target words, in relocation order -----

  /** A relocation for which the linker writes both a patch and a fixup. */
  predicate Resolved(env: Env, x: Item) {
    x.reloc.kind == Absolute && TargetVa(env, x.reloc.target) != 0
  }

  /** The bare target at the relocation site. */
  function TargetWrite(env: Env, x: Item): Write {
    Write(ObjectBase(x.isCode) + x.at, U32(TargetVa(env, x.reloc.target)))
  }

  function TargetWrites(env: Env, items: seq<Item>): seq<Write> {
    if items == [] then []
    else
      var before, x := TargetWrites(env, items[..|items| - 1]), items[|items| - 1];
      if Resolved(env, x) then before + [TargetWrite(env, x)] else before
  }

  predicate FromItem(env: Env, items: seq<Item>, w: Write) {
    exists i :: 0 <= i < |items| && Resolved(env, items[i]) && w == TargetWrite(env, items[i])
  }

  lemma {:induction false} TargetWritesFrom(env: Env, items: seq<Item>)
    ensures forall k :: 0 <= k < |TargetWrites(env, items)| ==> FromItem(env, items, TargetWrites(env, items)[k])
    ensures forall i :: 0 <= i < |items| && Resolved(env, items[i]) ==> TargetWrite(env, items[i]) in TargetWrites(env, items)
  {
    hide TargetWrite, Resolved;
    if items != [] {
      var init, x := items[..|items| - 1], items[|items| - 1];
      TargetWritesFrom(env, init);
      var ws := TargetWrites(env, items);
      forall k | 0 <= k < |ws|
        ensures FromItem(env, items, ws[k])
      {
        if k < |TargetWrites(env, init)| {
          assert FromItem(env, init, TargetWrites(env, init)[k]);
          var i :| 0 <= i < |init| && Resolved(env, init[i]) && ws[k] == TargetWrite(env, init[i]);
          assert items[i] == init[i];
        }
      }
      forall i | 0 <= i < |items| && Resolved(env, items[i])
        ensures TargetWrite(env, items[i]) in ws
      {
        if i < |init| {
          assert init[i] == items[i];
        }
      }
    }
  }

  lemma TwoSites(env: Env, x: Item, y: Item)
    requires SizesFit(env.state) && InSection(env, x) && InSection(env, y)
    requires x.isCode != y.isCode || x.at + 4 <= y.at || y.at + 4 <= x.at
    ensures Apart(TargetWrite(env, x), TargetWrite(env, y))
  {
  }

  lemma OneSite(env: Env, x: Item)
    requires SizesFit(env.state) && InSection(env, x)
    ensures TargetWrite(env, x).addr < 0x7_0000 && Fits(TargetWrite(env, x), 0x7_0000) && TargetWrite(env, x).data != []
  {
  }

  lemma {:induction false} TargetWritesApart(env: Env, items: seq<Item>)
    requires SizesFit(env.state) && AllInSection(env, items) && SitesApart(items)
    ensures PairwiseApart(TargetWrites(env, items)) && NoneEmpty(TargetWrites(env, items))
    ensures forall k :: 0 <= k < |TargetWrites(env, items)| ==>
              TargetWrites(env, items)[k].addr < 0x7_0000 && Fits(TargetWrites(env, items)[k], 0x7_0000)
  {
    hide TargetWrite, Apart, Fits, Resolved;
    if items != [] {
      var init, x := items[..|items| - 1], items[|items| - 1];
      TargetWritesApart(env, init);
      LastSiteApart(env, items);
      assert InSection(env, x);
      OneSite(env, x);
    }
  }

  lemma LastSiteApart(env: Env, items: seq<Item>)
    requires SizesFit(env.state) && AllInSection(env, items) && SitesApart(items) && items != []
    ensures var before := TargetWrites(env, items[..|items| - 1]);
            forall k :: 0 <= k < |before| ==> Apart(before[k], TargetWrite(env, items[|items| - 1]))
  {
    hide TargetWrite, TargetWrites, Apart, Resolved, SizesFit;
    var init, x := items[..|items| - 1], items[|items| - 1];
    var before := TargetWrites(env, init);
    TargetWritesFrom(env, init);
    forall k | 0 <= k < |before|
      ensures Apart(before[k], TargetWrite(env, x))
    {
      assert FromItem(env, init, before[k]);
      var i :| 0 <= i < |init| && Resolved(env, init[i]) && before[k] == TargetWrite(env, init[i]);
      assert items[i] == init[i] && InSection(env, items[i]) && InSection(env, x);
      TwoSites(env, items[i], x);
    }
  }

  // ----- the fixup records, page by page -----

  function FxWrite(lx: F.LxFile, symbols: Symbols, obj: nat, page: nat, fx: LxFixup): Write
    requires obj < 3
  {
    L.FixupWrite(lx, symbols, BASES, L.Site(obj, page * PAGE_SIZE + fx.sourceOffset, fx.sourceType % 0x10, ToRecord(fx).target))
  }

  function PageFxWrites(lx: F.LxFile, symbols: Symbols, obj: nat, page: nat, fixups: seq<LxFixup>): (ws: seq<Write>)
    requires obj < 3
    ensures |ws| == |fixups|
  {
    seq(|fixups|, i requires 0 <= i < |fixups| => FxWrite(lx, symbols, obj, page, fixups[i]))
  }

  function BucketWrites(lx: F.LxFile, symbols: Symbols, obj: nat, pages: seq<seq<LxFixup>>, n: nat): seq<Write>
    requires obj < 3 && n <= |pages|
  {
    if n == 0 then []
    else BucketWrites(lx, symbols, obj, pages, n - 1) + PageFxWrites(lx, symbols, obj, n - 1, pages[n - 1])
  }

  function ObjIndex(isCode: bool): nat {
    if isCode then 0 else 1
  }

  /** The loader resolves the fixup target of a relocation to the linker's target address. */
  lemma SameTarget(env: Env, lx: F.LxFile, symbols: Symbols, t: RelocTarget, modules: seq<string>)
    requires TargetVa(env, t) != 0
    requires modules <= lx.importedModules && |lx.importedModules| < 0x100
    requires var m := MeaningOf(env, t); m.Imported? ==> KnownImport(m.imp) && m.imp.moduleName in modules
    ensures TargetFor(env, modules, t).Some?
    ensures var target := L.TargetAddr(lx, symbols, BASES, ToRecord(LxFixup(0x07, 0, TargetFor(env, modules, t).value)).target);
            target != 0 && target % TWO32 == TargetVa(env, t)
  {
    var m := MeaningOf(env, t);
    if m.Imported? {
      var idx := IndexOf(modules, m.imp.moduleName);
      assert lx.importedModules[idx - 1] == m.imp.moduleName;
      assert L.ModuleName(lx, idx) == m.imp.moduleName;
    }
  }

  /** The fixup a resolved relocation pushes loads as that relocation's target. */
  lemma FixupMeansTarget(env: Env, lx: F.LxFile, symbols: Symbols, x: Item, modules: seq<string>)
    requires Resolved(env, x) && x.at < TWO16 * 0x10
    requires modules <= lx.importedModules && |lx.importedModules| < 0x100
    requires var m := MeaningOf(env, x.reloc.target);
             m.Imported? ==> KnownImport(m.imp) && m.imp.moduleName in modules
    ensures var t := TargetFor(env, modules, x.reloc.target);
            t.Some? && FxWrite(lx, symbols, ObjIndex(x.isCode), x.at / PAGE_SIZE, LxFixup(0x07, x.at % PAGE_SIZE, t.value)) == TargetWrite(env, x)
  {
    hide U32, L.TargetAddr, TargetFor, TargetVa, MeaningOf;
    SameTarget(env, lx, symbols, x.reloc.target, modules);
    assert (x.at / PAGE_SIZE) * PAGE_SIZE + x.at % PAGE_SIZE == x.at;
  }

  function Pushed(pages: seq<seq<LxFixup>>, page: nat, fx: LxFixup): seq<seq<LxFixup>>
    requires page < |pages|
  {
    pages[page := pages[page] + [fx]]
  }

  lemma {:induction false} BucketPush(lx: F.LxFile, symbols: Symbols, obj: nat, pages: seq<seq<LxFixup>>, page: nat, fx: LxFixup, n: nat)
    requires obj < 3 && page < |pages| && n <= |pages|
    ensures multiset(BucketWrites(lx, symbols, obj, Pushed(pages, page, fx), n))
         == multiset(BucketWrites(lx, symbols, obj, pages, n))
            + (if page < n then multiset{FxWrite(lx, symbols, obj, page, fx)} else multiset{})
  {
    hide FxWrite, PageFxWrites, BucketWrites;
    if n == 0 {
      NoBucketYet(lx, symbols, obj, pages);
      NoBucketYet(lx, symbols, obj, Pushed(pages, page, fx));
    } else {
      BucketStep(lx, symbols, obj, pages, n);
      BucketStep(lx, symbols, obj, Pushed(pages, page, fx), n);
      BucketPush(lx, symbols, obj, pages, page, fx, n - 1);
      var before, before' := BucketWrites(lx, symbols, obj, pages, n - 1), BucketWrites(lx, symbols, obj, Pushed(pages, page, fx), n - 1);
      var part := PageFxWrites(lx, symbols, obj, n - 1, pages[n - 1]);
      var part' := PageFxWrites(lx, symbols, obj, n - 1, Pushed(pages, page, fx)[n - 1]);
      PagePush(lx, symbols, obj, n - 1, pages[n - 1], fx);
      assert multiset(before' + part') == multiset(before') + multiset(part');
      assert multiset(before + part) == multiset(before) + multiset(part);
    }
  }

  lemma NoBucketYet(lx: F.LxFile, symbols: Symbols, obj: nat, pages: seq<seq<LxFixup>>)
    requires obj < 3
    ensures BucketWrites(lx, symbols, obj, pages, 0) == []
  {
  }

  lemma BucketStep(lx: F.LxFile, symbols: Symbols, obj: nat, pages: seq<seq<LxFixup>>, n: nat)
    requires obj < 3 && 0 < n <= |pages|
    ensures BucketWrites(lx, symbols, obj, pages, n)
         == BucketWrites(lx, symbols, obj, pages, n - 1) + PageFxWrites(lx, symbols, obj, n - 1, pages[n - 1])
  {
    hide PageFxWrites;
  }

  lemma PagePush(lx: F.LxFile, symbols: Symbols, obj: nat, page: nat, fixups: seq<LxFixup>, fx: LxFixup)
    requires obj < 3
    ensures multiset(PageFxWrites(lx, symbols, obj, page, fixups + [fx]))
         == multiset(PageFxWrites(lx, symbols, obj, page, fixups)) + multiset{FxWrite(lx, symbols, obj, page, fx)}
  {
    hide FxWrite;
    assert PageFxWrites(lx, symbols, obj, page, fixups + [fx])
        == PageFxWrites(lx, symbols, obj, page, fixups) + [FxWrite(lx, symbols, obj, page, fx)];
  }

  lemma {:induction false} NoBuckets(lx: F.LxFile, symbols: Symbols, obj: nat, n: nat, count: nat)
    requires obj < 3 && n <= count
    ensures BucketWrites(lx, symbols, obj, seq(count, _ => []), n) == []
  {
    if n > 0 {
      NoBuckets(lx, symbols, obj, n - 1, count);
    }
  }

  /** Code and data writes of the fixups of a pass. */
  function PassWrites(lx: F.LxFile, symbols: Symbols, p: Pass): seq<Write> {
    BucketWrites(lx, symbols, 0, p.codeFixups, |p.codeFixups|) + BucketWrites(lx, symbols, 1, p.dataFixups, |p.dataFixups|)
  }

  lemma StepBuckets(env: Env, lx: F.LxFile, symbols: Symbols, p: Pass, x: Item)
    requires SizesFit(env.state) && InSection(env, x)
    requires |p.codeFixups| == CodePages(env.state) && |p.dataFixups| == DataPages(env.state)
    requires Step(env, p, x).modules <= lx.importedModules && |lx.importedModules| < 0x100
    requires var m := MeaningOf(env, x.reloc.target); m.Imported? ==> KnownImport(m.imp)
    ensures multiset(PassWrites(lx, symbols, Step(env, p, x)))
         == multiset(PassWrites(lx, symbols, p)) + (if Resolved(env, x) then multiset{TargetWrite(env, x)} else multiset{})
  {
    hide FxWrite, TargetWrite, BucketWrites, TargetVa, MeaningOf, PatchOf;
    if Resolved(env, x) {
      var modules := ModulesAfter(env, p.modules, x.reloc.target);
      InternedHas(env, p.modules, x.reloc.target);
      FixupMeansTarget(env, lx, symbols, x, modules);
      var fx := LxFixup(0x07, x.at % PAGE_SIZE, TargetFor(env, modules, x.reloc.target).value);
      var page := x.at / PAGE_SIZE;
      if x.isCode {
        BucketPush(lx, symbols, 0, p.codeFixups, page, fx, |p.codeFixups|);
      } else {
        BucketPush(lx, symbols, 1, p.dataFixups, page, fx, |p.dataFixups|);
      }
    }
  }

  lemma InternedHas(env: Env, modules: seq<string>, t: RelocTarget)
    ensures var m := MeaningOf(env, t);
            m.Imported? ==> m.imp.moduleName in ModulesAfter(env, modules, t)
    ensures modules <= ModulesAfter(env, modules, t)
  {
  }

  lemma {:induction false} FoldBuckets(env: Env, lx: F.LxFile, symbols: Symbols, items: seq<Item>)
    requires SizesFit(env.state) && AllInSection(env, items) && ImportsKnown(env, items)
    requires Fold(env, items).modules <= lx.importedModules && |lx.importedModules| < 0x100
    ensures multiset(PassWrites(lx, symbols, Fold(env, items))) == multiset(TargetWrites(env, items))
  {
    hide BucketWrites, Step, Resolved, TargetWrite, InSection;
    FoldKeepsPages(env, items);
    if items == [] {
      NoBuckets(lx, symbols, 0, CodePages(env.state), CodePages(env.state));
      NoBuckets(lx, symbols, 1, DataPages(env.state), DataPages(env.state));
    } else {
      var init, x := items[..|items| - 1], items[|items| - 1];
      StepModules(env, Fold(env, init), x);
      FoldKeepsPages(env, init);
      FoldBuckets(env, lx, symbols, init);
      StepBuckets(env, lx, symbols, Fold(env, init), x);
    }
  }

  lemma StepModules(env: Env, p: Pass, x: Item)
    ensures p.modules <= Step(env, p, x).modules
  {
    InternedHas(env, p.modules, x.reloc.target);
  }

  // ----- sizes -----

  const ELEVEN: set<string> :=
    {"DOSCALLS", "QUECALLS", "PMWIN", "PMGPI", "KBDCALLS", "VIOCALLS", "SESMGR", "NLS", "MSG", "MDM", "UCONV"}

  predicate Distinct(names: seq<string>) {
    forall i, j :: 0 <= i < j < |names| ==> names[i] != names[j]
  }

  predicate AllKnown(names: seq<string>) {
    forall i :: 0 <= i < |names| ==> names[i] in ELEVEN
  }

  lemma {:induction false} FoldModules(env: Env, items: seq<Item>)
    requires ImportsKnown(env, items)
    ensures Distinct(Fold(env, items).modules) && AllKnown(Fold(env, items).modules)
  {
    hide MeaningOf, TargetVa;
    if items != [] {
      var init, x := items[..|items| - 1], items[|items| - 1];
      FoldModules(env, init);
      assert ImportsKnown(env, init) && x == items[|items| - 1];
      var before, after := Fold(env, init).modules, Fold(env, items).modules;
      assert after == ModulesAfter(env, before, x.reloc.target);
      if MeaningOf(env, x.reloc.target).Imported? {
        KnownNames(MeaningOf(env, x.reloc.target).imp);
      }
    }
  }

  lemma KnownNames(imp: Import)
    requires KnownImport(imp)
    ensures imp.moduleName in ELEVEN
  {
  }

  lemma {:induction false} DistinctCount(names: seq<string>, all: set<string>)
    requires Distinct(names) && forall i :: 0 <= i < |names| ==> names[i] in all
    ensures |names| <= |all|
  {
    if names != [] {
      var init, last := names[..|names| - 1], names[|names| - 1];
      DistinctCount(init, all - {last});
      assert |all - {last}| == |all| - 1;
    }
  }

  lemma KnownArePlain(names: seq<string>)
    requires AllKnown(names)
    ensures PlainNames(names)
    ensures forall i :: 0 <= i < |names| ==> |EncodeName(names[i])| <= 9
  {
  }

  lemma {:induction false} JoinBound<T>(parts: seq<seq<T>>, bound: nat)
    requires forall i :: 0 <= i < |parts| ==> |parts[i]| <= bound
    ensures |Join(parts)| <= bound * |parts|
  {
    if parts != [] {
      JoinBound(parts[..|parts| - 1], bound);
    }
  }

  lemma ModulesAreFew(names: seq<string>)
    requires Distinct(names) && AllKnown(names)
    ensures |names| <= 11 && PlainNames(names) && |Join(EncodeNames(names))| <= 99
  {
    DistinctCount(names, ELEVEN);
    assert |ELEVEN| <= 11;
    KnownArePlain(names);
    JoinBound(EncodeNames(names), 9);
  }

  lemma {:induction false} FoldIsAbsolute(env: Env, items: seq<Item>)
    ensures AllAbsolute(Fold(env, items).codeFixups) && AllAbsolute(Fold(env, items).dataFixups)
  {
    hide MeaningOf, TargetVa, PatchOf;
    if items != [] {
      FoldIsAbsolute(env, items[..|items| - 1]);
    }
  }

  lemma {:induction false} RecordsLength(lx: F.LxFile, symbols: Symbols, obj: nat, pages: seq<seq<LxFixup>>, n: nat)
    requires obj < 3 && n <= |pages|
    ensures Start(EncodePages(pages), n) == 9 * |BucketWrites(lx, symbols, obj, pages, n)|
  {
    hide FxWrite, EncodePage;
    if n > 0 {
      RecordsLength(lx, symbols, obj, pages, n - 1);
      JoinAt(EncodePages(pages), n - 1);
      PageLength(pages[n - 1]);
    }
  }

  lemma {:induction false} EmptyPages(n: nat)
    ensures |Join(EncodePages(seq(n, _ => [])))| == 0
  {
    var pages: seq<seq<LxFixup>> := seq(n, _ => []);
    JoinBound(EncodePages(pages), 0);
  }

  lemma PagesLength(lx: F.LxFile, symbols: Symbols, p: Pass)
    ensures |Join(EncodePages(p.codeFixups + p.dataFixups + seq(STACK_PAGES, _ => [])))| == 9 * |PassWrites(lx, symbols, p)|
  {
    hide BucketWrites, EncodePage;
    var c, d, s := p.codeFixups, p.dataFixups, seq(STACK_PAGES, _ => []);
    assert EncodePages(c + d + s) == EncodePages(c) + EncodePages(d) + EncodePages(s);
    JoinConcat(EncodePages(c) + EncodePages(d), EncodePages(s));
    JoinConcat(EncodePages(c), EncodePages(d));
    RecordsLength(lx, symbols, 0, c, |c|);
    RecordsLength(lx, symbols, 1, d, |d|);
    EmptyPages(STACK_PAGES);
    assert EncodePages(c)[..|c|] == EncodePages(c) && EncodePages(d)[..|d|] == EncodePages(d);
  }

  lemma EqualCount(vs: seq<Write>, ws: seq<Write>)
    requires multiset(vs) == multiset(ws)
    ensures |vs| == |ws|
  {
    assert |multiset(vs)| == |vs| && |multiset(ws)| == |ws|;
  }

  /**
   * A linkable input gives a well-formed image that fits the format's fields; the file is
   * within the parser's limit unless there is uninitialised data beyond the last data page.
   */
  lemma LinkableFits(env: Env)
    requires Linkable(env)
    ensures var m := ImageOf(env);
            && m.Valid() && m.Fits() && AllAbsolute(m.Pages()) && PlainNames(m.modules) && |m.modules| <= 11
            && (m.Gapless() <==> BssInPadding(env.state)) && (m.Gapless() ==> m.Total() <= P.MAX_PAGES)
  {
    hide Fold, Items, Linkable, BucketWrites, PassWrites, TargetWrites, Join, EncodePages, EncodeNames;
    LinkableParts(env);
    var items := Items(env);
    var p, m := Fold(env, items), ImageOf(env);
    var symbols := Symbols(map[], map[]);
    var lx := F.LxFile(F.LxHeader([]), [], [], [], [], [], p.modules, [], [], []);
    ImageIsPaged(env);
    FoldKeepsPages(env, items);
    FoldModules(env, items);
    ModulesAreFew(p.modules);
    FoldIsAbsolute(env, items);
    FoldBuckets(env, lx, symbols, items);
    TargetWritesApart(env, items);
    EqualCount(PassWrites(lx, symbols, p), TargetWrites(env, items));
    ApartCount(TargetWrites(env, items), 0x7_0000);
    PagesLength(lx, symbols, p);
    assert m.Pages() == p.codeFixups + p.dataFixups + seq(STACK_PAGES, _ => []);
    assert |m.Records()| <= 9 * 0x7_0000 && |m.ModuleBytes()| <= 99;
    CodeHasNoBss(env.objects, |env.objects|);
    TotalIsBounded(env.state);
    assert m.Total() == CodePages(env.state) + DataPages(env.state) + STACK_PAGES;
  }

  lemma TotalIsBounded(s: State)
    requires SizesFit(s) && s.code.bssSize == 0
    ensures CodePages(s) <= 0x50 && DataPages(s) <= 0x10 + BSS_LIMIT / PAGE_SIZE
  {
  }

  lemma LinkableParts(env: Env)
    requires Linkable(env)
    ensures env.Valid() && SizesFit(env.state) && AllInSection(env, Items(env)) && SitesApart(Items(env))
    ensures ImportsKnown(env, Items(env))
  {
  }

  // ----- the parsed file as the loader sees it -----

  lemma {:induction false} FlatRecords(obj: nat, page: nat, fixups: seq<LxFixup>, n: nat)
    requires n <= |fixups|
    ensures L.RecordSites(obj, page, ToRecords(fixups), n)
         == seq(n, i requires 0 <= i < n =>
              L.Site(obj, page * PAGE_SIZE + fixups[i].sourceOffset, fixups[i].sourceType % 0x10, ToRecord(fixups[i]).target))
  {
    if n > 0 {
      FlatRecords(obj, page, fixups, n - 1);
      var r, fx := ToRecords(fixups)[n - 1], fixups[n - 1];
      assert r == ToRecord(fx) && r.sourceOffsets == [fx.sourceOffset];
      assert L.OffsetSites(obj, page, r, 1)
          == [L.Site(obj, page * PAGE_SIZE + fx.sourceOffset, fx.sourceType % 0x10, ToRecord(fx).target)];
    }
  }

  lemma PageWritesAre(lx: F.LxFile, symbols: Symbols, obj: nat, page: nat, fixups: seq<LxFixup>)
    requires obj < 3
    ensures var sites := L.RecordSites(obj, page, ToRecords(fixups), |fixups|);
            L.SitesIn(sites, 3) && L.FixupWrites(lx, symbols, BASES, sites) == PageFxWrites(lx, symbols, obj, page, fixups)
  {
    hide L.FixupWrite;
    FlatRecords(obj, page, fixups, |fixups|);
  }

  lemma {:induction false} PageSitesAreBuckets(lx: F.LxFile, symbols: Symbols, obj: nat, pages: seq<seq<LxFixup>>, n: nat)
    requires obj < 3 == |lx.objectTable| && n <= |pages|
    requires forall p :: 0 <= p < n ==> L.RecordsOn(lx, obj, p) == ToRecords(pages[p])
    ensures L.SitesIn(L.PageSites(lx, obj, n), 3)
    ensures L.FixupWrites(lx, symbols, BASES, L.PageSites(lx, obj, n)) == BucketWrites(lx, symbols, obj, pages, n)
  {
    hide FxWrite, PageFxWrites, L.RecordSites, L.FixupWrite, L.RecordsOn, ToRecords;
    if n > 0 {
      PageSitesAreBuckets(lx, symbols, obj, pages, n - 1);
      PageWritesAre(lx, symbols, obj, n - 1, pages[n - 1]);
      var sites := L.RecordSites(obj, n - 1, ToRecords(pages[n - 1]), |pages[n - 1]|);
      assert L.RecordsOn(lx, obj, n - 1) == ToRecords(pages[n - 1]);
      L.FixupWritesConcat(lx, symbols, BASES, L.PageSites(lx, obj, n - 1), sites);
    }
  }

  lemma RecordsOnPages(m: Image, obj: nat, page: nat)
    requires m.Fits() && m.Valid() && obj < 3
    requires page < [|m.codeFixups|, |m.dataFixups|, STACK_PAGES][obj]
    ensures L.RecordsOn(Expected(m), obj, page)
         == ToRecords([m.codeFixups, m.dataFixups, seq(STACK_PAGES, _ => [])][obj][page])
  {
    hide HeaderWords, FixupPageTable, Words;
    var stack: seq<seq<LxFixup>> := seq(STACK_PAGES, _ => []);
    var first := [0, |m.codeFixups|, |m.codeFixups| + |m.dataFixups|][obj];
    assert L.FirstPage(ExpectedObjects(m)[obj]) == first;
    assert m.Pages()[first + page] == [m.codeFixups, m.dataFixups, stack][obj][page];
  }

  /** The loader's fixup writes, in its own order, are those of the buckets. */
  lemma SitesAreBuckets(m: Image, symbols: Symbols)
    requires m.Fits() && m.Valid()
    ensures var lx := Expected(m);
            && L.SitesIn(L.Sites(lx), 3)
            && L.FixupWrites(lx, symbols, BASES, L.Sites(lx))
            == BucketWrites(lx, symbols, 0, m.codeFixups, |m.codeFixups|)
               + BucketWrites(lx, symbols, 1, m.dataFixups, |m.dataFixups|)
  {
    hide HeaderWords, FixupPageTable, Words, BucketWrites, L.PageSites, L.FixupWrite, ToRecordPages;
    var lx := Expected(m);
    var stack: seq<seq<LxFixup>> := seq(STACK_PAGES, _ => []);
    forall obj, page | 0 <= obj < 3 && 0 <= page < [|m.codeFixups|, |m.dataFixups|, STACK_PAGES][obj]
      ensures L.RecordsOn(lx, obj, page) == ToRecords([m.codeFixups, m.dataFixups, stack][obj][page])
    {
      RecordsOnPages(m, obj, page);
    }
    PageSitesAreBuckets(lx, symbols, 0, m.codeFixups, |m.codeFixups|);
    PageSitesAreBuckets(lx, symbols, 1, m.dataFixups, |m.dataFixups|);
    PageSitesAreBuckets(lx, symbols, 2, stack, STACK_PAGES);
    NoBuckets(lx, symbols, 2, STACK_PAGES, STACK_PAGES);
    var c, d, s := L.PageSites(lx, 0, |m.codeFixups|), L.PageSites(lx, 1, |m.dataFixups|), L.PageSites(lx, 2, STACK_PAGES);
    ThreeObjects(lx);
    L.FixupWritesConcat(lx, symbols, BASES, c, d);
    L.FixupWritesConcat(lx, symbols, BASES, c + d, s);
  }

  lemma ThreeObjects(lx: F.LxFile)
    requires |lx.objectTable| == 3
    ensures L.Sites(lx) == L.PageSites(lx, 0, lx.objectTable[0].pageCount) + L.PageSites(lx, 1, lx.objectTable[1].pageCount)
                           + L.PageSites(lx, 2, lx.objectTable[2].pageCount)
  {
    hide L.PageSites;
    assert L.Sites(lx, 0) == [];
    assert L.Sites(lx, 1) == [] + L.PageSites(lx, 0, lx.objectTable[0].pageCount);
    assert L.Sites(lx, 2) == L.Sites(lx, 1) + L.PageSites(lx, 1, lx.objectTable[1].pageCount);
    assert L.Sites(lx, 3) == L.Sites(lx, 2) + L.PageSites(lx, 2, lx.objectTable[2].pageCount);
  }

  // ----- mapping the pages -----

  /** Byte `x` of memory once the three objects are mapped over `mem`. */
  function Mapped(m: Image, mem: seq<byte>, x: nat): byte
    requires x < |mem|
  {
    if CODE_OBJECT_BASE <= x < CODE_OBJECT_BASE + |m.code| then m.code[x - CODE_OBJECT_BASE]
    else if DATA_OBJECT_BASE <= x < DATA_OBJECT_BASE + |m.data| then m.data[x - DATA_OBJECT_BASE]
    else if STACK_OBJECT_BASE <= x < STACK_OBJECT_BASE + STACK_SIZE then 0
    else mem[x]
  }

  /** Byte `x` of memory once `content` is placed at `base`. */
  function Placed(mem: seq<byte>, base: nat, content: seq<byte>, x: nat): byte
    requires x < |mem|
  {
    if base <= x < base + |content| then content[x - base] else mem[x]
  }

  /** Consecutive full pages from `base` on place their joined contents. */
  lemma {:induction false} PagesPlace(mem: seq<byte>, base: nat, content: seq<byte>, ws: seq<Write>, n: nat)
    requires n <= |ws| && |content| == PAGE_SIZE * |ws| && base + |content| <= |mem|
    requires forall p :: 0 <= p < |ws| ==> ws[p] == Write(base + p * PAGE_SIZE, content[p * PAGE_SIZE..(p + 1) * PAGE_SIZE])
    ensures forall x :: 0 <= x < |mem| ==> Apply(mem, ws[..n])[x] == Placed(mem, base, content[..n * PAGE_SIZE], x)
    ensures L.AllFit(ws, |mem|)
  {
    if n > 0 {
      PagesPlace(mem, base, content, ws, n - 1);
      assert ws[..n][..n - 1] == ws[..n - 1];
      var w := ws[n - 1];
      var before := Apply(mem, ws[..n - 1]);
      forall x | 0 <= x < |mem|
        ensures Apply(mem, ws[..n])[x] == Placed(mem, base, content[..n * PAGE_SIZE], x)
      {
        assert Apply(mem, ws[..n]) == Store(before, w);
        assert before[x] == Placed(mem, base, content[..(n - 1) * PAGE_SIZE], x);
      }
    }
  }

  function Content(m: Image, obj: nat): seq<byte>
    requires obj < 3
  {
    if obj == 0 then m.code else if obj == 1 then m.data else Zeros(STACK_SIZE)
  }

  function PagesIn(m: Image, obj: nat): nat
    requires obj < 3
  {
    if obj == 0 then |m.codeFixups| else if obj == 1 then |m.dataFixups| else STACK_PAGES
  }

  function FirstIn(m: Image, obj: nat): nat
    requires obj < 3
  {
    if obj == 0 then 0 else if obj == 1 then |m.codeFixups| else |m.codeFixups| + |m.dataFixups|
  }

  lemma ContentLies(f: seq<byte>, m: Image, obj: nat)
    requires m.Fits() && m.Valid() && m.Gapless() && LaidOut(f, m) && obj < 3
    ensures |Content(m, obj)| == PAGE_SIZE * PagesIn(m, obj)
    ensures Lies(f, m.DataOff() + PAGE_SIZE * FirstIn(m, obj), Content(m, obj))
  {
    hide Lies, HeaderWords, ObjectWords, FixupPageTable, Words, PageMapBytes;
  }

  lemma LiesPage(f: seq<byte>, at: nat, content: seq<byte>, p: nat)
    requires Lies(f, at, content) && (p + 1) * PAGE_SIZE <= |content|
    ensures at + (p + 1) * PAGE_SIZE <= |f|
    ensures f[at + p * PAGE_SIZE..at + (p + 1) * PAGE_SIZE] == content[p * PAGE_SIZE..(p + 1) * PAGE_SIZE]
  {
    var part := content[p * PAGE_SIZE..(p + 1) * PAGE_SIZE];
    LiesSub(f, at, content, p * PAGE_SIZE, part);
  }

  lemma EntriesAre(m: Image, obj: nat, p: nat)
    requires m.Fits() && m.Valid() && obj < 3
    ensures L.PagesOf(Expected(m), obj) == PagesIn(m, obj)
    ensures p < PagesIn(m, obj) ==>
              L.EntryOf(Expected(m), obj, p)
              == F.PageEntry(PAGE_SIZE * (FirstIn(m, obj) + p), PageSizeAt(m, FirstIn(m, obj) + p), 0)
  {
    hide HeaderWords, FixupPageTable, Words, ToRecordPages, PageSizeAt;
    assert Expected(m).objectTable == ExpectedObjects(m);
    assert L.FirstPage(ExpectedObjects(m)[obj]) == FirstIn(m, obj);
    assert ExpectedObjects(m)[obj].pageCount == PagesIn(m, obj);
  }

  /** Without a gap every page is full. */
  lemma PagesAreFull(m: Image, obj: nat, p: nat)
    requires m.Valid() && m.Gapless() && obj < 3 && p < PagesIn(m, obj)
    ensures PageSizeAt(m, FirstIn(m, obj) + p) == PAGE_SIZE
  {
    hide SliceSize;
    if obj == 0 {
      FullSlice(|m.code|, p);
    } else if obj == 1 {
      FullSlice(|m.data|, p);
    }
  }

  lemma HeaderPaging(m: Image)
    requires m.Fits()
    ensures var h := F.LxHeader(Words(HeaderWords(m)));
            h.Valid() && h.DataPagesOffset() == m.DataOff() && h.PageOffsetShift() == 0
  {
    hide Words, HeaderWords, Get32;
    HeaderHasFields(m);
  }

  lemma PageBytesAre(f: seq<byte>, m: Image, obj: nat, p: nat)
    requires m.Fits() && m.Valid() && m.Gapless() && LaidOut(f, m) && obj < 3 && p < PagesIn(m, obj)
    ensures Expected(m).header.Valid() && |Expected(m).objectTable| == 3 && L.PagesOf(Expected(m), obj) == PagesIn(m, obj)
    ensures (p + 1) * PAGE_SIZE <= |Content(m, obj)|
    ensures L.PageReadable(Expected(m), f, L.EntryOf(Expected(m), obj, p))
    ensures L.PageBytes(Expected(m), f, L.EntryOf(Expected(m), obj, p)) == Content(m, obj)[p * PAGE_SIZE..(p + 1) * PAGE_SIZE]
  {
    hide Words, HeaderWords, LaidOut, Lies, Content, ToRecordPages, FixupPageTable;
    HeaderPaging(m);
    EntriesAre(m, obj, p);
    PagesAreFull(m, obj, p);
    ContentLies(f, m, obj);
    LiesPage(f, m.DataOff() + PAGE_SIZE * FirstIn(m, obj), Content(m, obj), p);
  }

  lemma PageWriteIs(f: seq<byte>, m: Image, obj: nat, p: nat)
    requires m.Fits() && m.Valid() && m.Gapless() && LaidOut(f, m) && obj < 3 && p < PagesIn(m, obj)
    requires BASES[obj] + |Content(m, obj)| <= TWO32
    ensures Expected(m).header.Valid() && |Expected(m).objectTable| == 3 && L.PagesOf(Expected(m), obj) == PagesIn(m, obj)
    ensures (p + 1) * PAGE_SIZE <= |Content(m, obj)|
    ensures L.PageReadable(Expected(m), f, L.EntryOf(Expected(m), obj, p))
    ensures L.ObjectPageWrites(Expected(m), f, BASES, obj)[p]
         == Write(BASES[obj] + p * PAGE_SIZE, Content(m, obj)[p * PAGE_SIZE..(p + 1) * PAGE_SIZE])
  {
    hide Words, HeaderWords, LaidOut, Content, ToRecordPages, FixupPageTable, L.PageBytes, L.PageReadable, L.EntryOf, Expected;
    PageBytesAre(f, m, obj, p);
    assert BASES[obj] + p * PAGE_SIZE < TWO32;
  }

  lemma ObjectPlaced(f: seq<byte>, m: Image, mem: seq<byte>, obj: nat)
    requires m.Fits() && m.Valid() && m.Gapless() && LaidOut(f, m) && obj < 3
    requires BASES[obj] + |Content(m, obj)| <= |mem| <= TWO32
    ensures Expected(m).header.Valid() && |Expected(m).objectTable| == 3 && L.ObjectReadable(Expected(m), f, obj)
    ensures var ws := L.ObjectPageWrites(Expected(m), f, BASES, obj);
            && L.AllFit(ws, |mem|)
            && forall x :: 0 <= x < |mem| ==> Apply(mem, ws)[x] == Placed(mem, BASES[obj], Content(m, obj), x)
  {
    hide Words, HeaderWords, LaidOut, Content, ToRecordPages, FixupPageTable, L.PageBytes, L.PageReadable, L.EntryOf, Placed, L.AllFit;
    HeaderPaging(m);
    EntriesAre(m, obj, 0);
    ContentLies(f, m, obj);
    var lx, content := Expected(m), Content(m, obj);
    var ws := L.ObjectPageWrites(lx, f, BASES, obj);
    forall p | 0 <= p < PagesIn(m, obj)
      ensures L.PageReadable(lx, f, L.EntryOf(lx, obj, p))
      ensures ws[p] == Write(BASES[obj] + p * PAGE_SIZE, content[p * PAGE_SIZE..(p + 1) * PAGE_SIZE])
    {
      PageWriteIs(f, m, obj, p);
    }
    PagesPlace(mem, BASES[obj], content, ws, |ws|);
    assert ws[..|ws|] == ws && content[..|ws| * PAGE_SIZE] == content;
  }

  lemma ThreePageWrites(lx: F.LxFile, f: seq<byte>)
    requires lx.header.Valid() && |lx.objectTable| == 3
    ensures L.PageWrites(lx, f, BASES)
         == L.ObjectPageWrites(lx, f, BASES, 0) + L.ObjectPageWrites(lx, f, BASES, 1) + L.ObjectPageWrites(lx, f, BASES, 2)
  {
    hide L.ObjectPageWrites;
    assert L.PageWrites(lx, f, BASES, 0) == [];
    assert L.PageWrites(lx, f, BASES, 1) == [] + L.ObjectPageWrites(lx, f, BASES, 0);
    assert L.PageWrites(lx, f, BASES, 2) == L.PageWrites(lx, f, BASES, 1) + L.ObjectPageWrites(lx, f, BASES, 1);
    assert L.PageWrites(lx, f, BASES, 3) == L.PageWrites(lx, f, BASES, 2) + L.ObjectPageWrites(lx, f, BASES, 2);
  }

  lemma FitJoin(vs: seq<Write>, ws: seq<Write>, size: nat)
    requires L.AllFit(vs, size) && L.AllFit(ws, size)
    ensures L.AllFit(vs + ws, size)
  {
  }

  /** Mapping places code, data and a zeroed stack, and touches nothing else. */
  lemma PagesAreMapped(f: seq<byte>, m: Image, mem: seq<byte>)
    requires m.Fits() && m.Valid() && m.Gapless() && LaidOut(f, m)
    requires |m.code| <= CODE_LIMIT && |m.data| <= DATA_LIMIT && MEMORY_TOP <= |mem| <= TWO32
    ensures Expected(m).header.Valid() && |Expected(m).objectTable| == 3 && L.PagesReadable(Expected(m), f)
    ensures var ws := L.PageWrites(Expected(m), f, BASES);
            && L.AllFit(ws, |mem|)
            && forall x :: 0 <= x < |mem| ==> Apply(mem, ws)[x] == Mapped(m, mem, x)
  {
    hide Expected, LaidOut, Placed, Mapped, Apply, Zeros, L.ObjectPageWrites, L.PageWrites, L.AllFit, L.ObjectReadable;
    hide Parts, HeaderWords, Join, EncodePages, EncodeNames;
    ObjectPlaced(f, m, mem, 0);
    var lx := Expected(m);
    var w0, w1, w2 := L.ObjectPageWrites(lx, f, BASES, 0), L.ObjectPageWrites(lx, f, BASES, 1), L.ObjectPageWrites(lx, f, BASES, 2);
    var m1 := Apply(mem, w0);
    ObjectPlaced(f, m, m1, 1);
    var m2 := Apply(m1, w1);
    ObjectPlaced(f, m, m2, 2);
    ThreePageWrites(lx, f);
    ApplyConcat(mem, w0, w1);
    ApplyConcat(mem, w0 + w1, w2);
    FitJoin(w0, w1, |mem|);
    FitJoin(w0 + w1, w2, |mem|);
    ThreePlaced(m, mem, m1, m2, Apply(m2, w2));
  }

  lemma ThreePlaced(m: Image, mem: seq<byte>, m1: seq<byte>, m2: seq<byte>, m3: seq<byte>)
    requires |mem| == |m1| == |m2| == |m3|
    requires |m.code| <= CODE_LIMIT && |m.data| <= DATA_LIMIT
    requires forall x :: 0 <= x < |mem| ==> m1[x] == Placed(mem, BASES[0], Content(m, 0), x)
    requires forall x :: 0 <= x < |mem| ==> m2[x] == Placed(m1, BASES[1], Content(m, 1), x)
    requires forall x :: 0 <= x < |mem| ==> m3[x] == Placed(m2, BASES[2], Content(m, 2), x)
    ensures forall x :: 0 <= x < |mem| ==> m3[x] == Mapped(m, mem, x)
  {
    forall x | 0 <= x < |mem|
      ensures m3[x] == Mapped(m, mem, x)
    {
      assert m3[x] == Placed(m2, BASES[2], Content(m, 2), x);
      assert m2[x] == Placed(m1, BASES[1], Content(m, 1), x);
      assert m1[x] == Placed(mem, BASES[0], Content(m, 0), x);
    }
  }

  /** With a gap the last page of the stack lies behind the end of the file. */
  lemma GapIsUnreadable(f: seq<byte>, m: Image)
    requires m.Fits() && m.Valid() && !m.Gapless() && f == Join(Parts(m))
    ensures Expected(m).header.Valid() && !L.PagesReadable(Expected(m), f)
  {
    hide Words, HeaderWords, LaidOut, ToRecordPages, FixupPageTable, Join, Parts, PageMapBytes;
    HeaderPaging(m);
    FileIsLaidOut(m);
    var last := STACK_PAGES - 1;
    EntriesAre(m, 2, last);
    var lx := Expected(m);
    var e := L.EntryOf(lx, 2, last);
    assert e == F.PageEntry(PAGE_SIZE * (m.Total() - 1), PAGE_SIZE, 0);
    NoShift(e.dataOffset);
    assert L.PageOffset(lx, e) == m.DataOff() + PAGE_SIZE * (m.Total() - 1);
    assert !L.PageReadable(lx, f, e);
    assert !L.ObjectReadable(lx, f, 2);
  }

  lemma NoShift(v: nat)
    ensures L.Shifted(v, 0) == v
  {
  }

  // ----- the loaded memory -----

  /** `mem` after loading the parsed file. */
  function Loaded(m: Image, symbols: Symbols, mem: seq<byte>): seq<byte>
    requires m.Fits() && m.Valid()
    requires Expected(m).header.Valid() && L.SitesIn(L.Sites(Expected(m)), 3)
  {
    Apply(mem, L.LoadWrites(Expected(m), Join(Parts(m)), symbols, BASES))
  }

  lemma FixupsRearrangeTargets(env: Env, symbols: Symbols)
    requires Linkable(env)
    ensures ImageOf(env).Valid() && ImageOf(env).Fits()
    ensures var lx := Expected(ImageOf(env));
            && L.SitesIn(L.Sites(lx), 3)
            && multiset(L.FixupWrites(lx, symbols, BASES, L.Sites(lx))) == multiset(TargetWrites(env, Items(env)))
  {
    hide Fold, Items, Linkable, BucketWrites, TargetWrites, Join, EncodePages, EncodeNames, L.Sites, L.FixupWrites, L.FixupWrite;
    LinkableParts(env);
    LinkableFits(env);
    SitesAreBuckets(ImageOf(env), symbols);
    FoldBuckets(env, Expected(ImageOf(env)), symbols, Items(env));
  }

  lemma AllFitRearranged(vs: seq<Write>, ws: seq<Write>, size: nat)
    requires multiset(vs) == multiset(ws) && L.AllFit(vs, size)
    ensures L.AllFit(ws, size)
  {
    forall i | 0 <= i < |ws|
      ensures Fits(ws[i], size)
    {
      var k := Find(vs, ws, i);
    }
  }

  lemma HeaderIsValid(m: Image)
    requires m.Fits() && m.Valid()
    ensures Expected(m).header.Valid() && |Expected(m).objectTable| == 3 && L.PreferredBases(Expected(m)) == BASES
  {
    HeaderPaging(m);
  }

  /**
   * Every resolved absolute site of `r` holds its target, and every other byte is the
   * patched image's, zero on the stack, or that of `mem`.
   */
  predicate LoadedRight(env: Env, mem: seq<byte>, r: seq<byte>) {
    var items := Items(env);
    && |r| == |mem|
    && (forall i :: 0 <= i < |items| && Resolved(env, items[i]) ==> Landed(r, TargetWrite(env, items[i])))
    && (forall x :: 0 <= x < |mem| && !Covered(TargetWrites(env, items), x) ==> r[x] == Mapped(ImageOf(env), mem, x))
  }

  /**
   * A linkable input survives writing, parsing and loading.  The file parses back to the
   * tables that went in, the load succeeds, every resolved absolute site holds its target,
   * and every other byte of memory is the patched image's, zero on the stack, or untouched.
   */
  lemma LoadOfLink(env: Env, symbols: Symbols, mem: seq<byte>)
    requires Linkable(env) && BssInPadding(env.state) && MEMORY_TOP <= |mem| <= TWO32
    ensures ImageOf(env).Valid() && ImageOf(env).Fits()
    ensures P.ParseSpec(Join(Parts(ImageOf(env)))) == Ok(Expected(ImageOf(env)))
    ensures var lx := Expected(ImageOf(env));
            && lx.header.Valid() && L.PreferredBases(lx) == BASES && L.SitesIn(L.Sites(lx), 3)
            && L.PagesReadable(lx, Join(Parts(ImageOf(env))))
            && L.AllFit(L.LoadWrites(lx, Join(Parts(ImageOf(env))), symbols, BASES), |mem|)
    ensures LoadedRight(env, mem, Loaded(ImageOf(env), symbols, mem))
  {
    hide Linkable, Items, TargetWrites, Parts, Join, Expected, L.Sites, L.PageWrites, L.FixupWrites, LaidOut, Mapped,
         L.PagesReadable, Apply, ImageOf, TargetWrite, Resolved, Landed, L.AllFit, Covered, P.ParseSpec, BssInPadding;
    var m, items := ImageOf(env), Items(env);
    LinkableParts(env);
    LinkableFits(env);
    ImageSizes(env);
    ParseUndoesWrite(m);
    HeaderIsValid(m);
    var f, lx := Join(Parts(m)), Expected(m);
    FileIsLaidOut(m);
    PagesAreMapped(f, m, mem);
    FixupsRearrangeTargets(env, symbols);
    var pages, fixups, targets := L.PageWrites(lx, f, BASES), L.FixupWrites(lx, symbols, BASES, L.Sites(lx)), TargetWrites(env, items);
    TargetWritesApart(env, items);
    TargetWritesFrom(env, items);
    TargetsFit(targets, |mem|);
    AllFitRearranged(targets, fixups, |mem|);
    FitJoin(pages, fixups, |mem|);
    ApplyConcat(mem, pages, fixups);
    TargetsApplied(Apply(mem, pages), targets, fixups);
    forall i | 0 <= i < |items| && Resolved(env, items[i])
      ensures Landed(Loaded(m, symbols, mem), TargetWrite(env, items[i]))
    {
      assert TargetWrite(env, items[i]) in targets;
    }
  }

  /**
   * Uninitialised data that needs a page of its own makes the file useless: the page map
   * counts that page in its file offsets, but the file does not hold it, so that the stack's
   * last page cannot be read.
   */
  lemma BssNeverLoads(env: Env)
    requires Linkable(env) && !BssInPadding(env.state)
    ensures ImageOf(env).Valid() && ImageOf(env).Fits()
    ensures var f, lx := Join(Parts(ImageOf(env))), Expected(ImageOf(env));
            if ImageOf(env).Total() > P.MAX_PAGES then P.ParseSpec(f) == Err(F.TooManyPages)
            else P.ParseSpec(f) == Ok(lx) && lx.header.Valid() && !L.PagesReadable(lx, f)
  {
    hide Linkable, Parts, Join, Expected, ImageOf, BssInPadding, P.ParseSpec, L.PagesReadable;
    var m := ImageOf(env);
    LinkableFits(env);
    GapIsUnreadable(Join(Parts(m)), m);
    if m.Total() > P.MAX_PAGES {
      TooManyPagesFail(m);
    } else {
      ParseUndoesWrite(m);
    }
  }

  lemma TargetsFit(targets: seq<Write>, size: nat)
    requires size >= 0x7_0000 && forall k :: 0 <= k < |targets| ==> Fits(targets[k], 0x7_0000)
    ensures L.AllFit(targets, size)
  {
  }

  lemma TargetsApplied(m1: seq<byte>, targets: seq<Write>, fixups: seq<Write>)
    requires PairwiseApart(targets) && NoneEmpty(targets) && multiset(targets) == multiset(fixups) && L.AllFit(targets, |m1|)
    ensures forall w :: w in targets ==> Landed(Apply(m1, fixups), w)
    ensures forall x :: 0 <= x < |m1| && !Covered(targets, x) ==> Apply(m1, fixups)[x] == m1[x]
  {
    ApplyRearranged(m1, targets, fixups);
  }

  lemma ImageSizes(env: Env)
    requires SizesFit(env.state)
    ensures |ImageOf(env).code| <= CODE_LIMIT && |ImageOf(env).data| <= DATA_LIMIT
    ensures |env.state.code.data| <= |ImageOf(env).code| && |env.state.data.data| <= |ImageOf(env).data|
  {
    hide Fold, Items;
  }
}
