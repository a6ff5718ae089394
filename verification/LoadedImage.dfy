/**
 * The loaded image against the linker's own patched image: equal exactly when no resolved
 * absolute relocation has an addend.  Calls and other relative sites are right either way.
 */
module LoadedImage {
  import opened Bytes
  import opened Wrappers
  import opened GuestMem
  import opened LinkerState
  import opened Imports
  import opened LxWriter
  import opened LxRoundTrip
  import opened LinkLoad
  import F = LxFormat
  import P = LxParser
  import L = LxLoader

  // ----- the patches of one buffer, in relocation order -----

  predicate Patched(env: Env, x: Item) {
    TargetVa(env, x.reloc.target) != 0 && x.reloc.kind in {Absolute, Relative}
  }

  function SidePatches(env: Env, items: seq<Item>, isCode: bool): seq<Write> {
    if items == [] then []
    else
      var before, x := SidePatches(env, items[..|items| - 1], isCode), items[|items| - 1];
      if x.isCode == isCode && Patched(env, x) then before + [PatchOf(env, x)] else before
  }

  predicate PatchFrom(env: Env, items: seq<Item>, isCode: bool, w: Write) {
    exists i :: 0 <= i < |items| && items[i].isCode == isCode && Patched(env, items[i]) && w == PatchOf(env, items[i])
  }

  lemma {:induction false} SidePatchesFrom(env: Env, items: seq<Item>, isCode: bool)
    ensures forall k :: 0 <= k < |SidePatches(env, items, isCode)| ==> PatchFrom(env, items, isCode, SidePatches(env, items, isCode)[k])
    ensures forall i :: 0 <= i < |items| && items[i].isCode == isCode && Patched(env, items[i]) ==>
              PatchOf(env, items[i]) in SidePatches(env, items, isCode)
  {
    hide PatchOf, Patched;
    if items != [] {
      var init := items[..|items| - 1];
      SidePatchesFrom(env, init, isCode);
      var before, ws := SidePatches(env, init, isCode), SidePatches(env, items, isCode);
      forall k | 0 <= k < |ws|
        ensures PatchFrom(env, items, isCode, ws[k])
      {
        if k < |before| {
          assert PatchFrom(env, init, isCode, before[k]);
          var i :| 0 <= i < |init| && init[i].isCode == isCode && Patched(env, init[i]) && ws[k] == PatchOf(env, init[i]);
          assert items[i] == init[i];
        }
      }
      forall i | 0 <= i < |items| && items[i].isCode == isCode && Patched(env, items[i])
        ensures PatchOf(env, items[i]) in ws
      {
        if i < |init| {
          assert init[i] == items[i];
        }
      }
    }
  }

  lemma PatchShape(env: Env, x: Item)
    ensures PatchOf(env, x).addr == x.at && |PatchOf(env, x).data| == 4
  {
  }

  /** A patch is apart from the last one on the same side. */
  lemma TwoPatches(env: Env, items: seq<Item>, i: nat)
    requires SitesApart(items) && i + 1 < |items| && items[i].isCode == items[|items| - 1].isCode
    ensures Apart(PatchOf(env, items[i]), PatchOf(env, items[|items| - 1]))
  {
    hide PatchOf;
    PatchShape(env, items[i]);
    PatchShape(env, items[|items| - 1]);
  }

  lemma {:induction false} SidePatchesApart(env: Env, items: seq<Item>, isCode: bool)
    requires AllInSection(env, items) && SitesApart(items)
    ensures var ws := SidePatches(env, items, isCode);
            PairwiseApart(ws) && NoneEmpty(ws) && L.AllFit(ws, |Buffer(env, isCode)|)
  {
    hide PatchOf, Patched, Apart;
    if items != [] {
      var init, x := items[..|items| - 1], items[|items| - 1];
      SidePatchesApart(env, init, isCode);
      PatchShape(env, x);
      assert InSection(env, x);
      if x.isCode == isCode {
        LastPatchApart(env, items);
      }
    }
  }

  lemma LastPatchApart(env: Env, items: seq<Item>)
    requires SitesApart(items) && items != []
    ensures var x := items[|items| - 1];
            var before := SidePatches(env, items[..|items| - 1], x.isCode);
            forall k :: 0 <= k < |before| ==> Apart(before[k], PatchOf(env, x))
  {
    hide PatchOf, Patched, Apart, SidePatches, SitesApart;
    var init, x := items[..|items| - 1], items[|items| - 1];
    var before := SidePatches(env, init, x.isCode);
    SidePatchesFrom(env, init, x.isCode);
    forall k | 0 <= k < |before|
      ensures Apart(before[k], PatchOf(env, x))
    {
      assert PatchFrom(env, init, x.isCode, before[k]);
      var i :| 0 <= i < |init| && init[i].isCode == x.isCode && Patched(env, init[i]) && before[k] == PatchOf(env, init[i]);
      assert items[i] == init[i];
      TwoPatches(env, items, i);
    }
  }

  lemma StepPatches(env: Env, p: Pass, x: Item, side: seq<Write>)
    requires multiset(p.codePatches + p.codePcPatches) == multiset(side)
    ensures var q := Step(env, p, x);
            && multiset(q.codePatches + q.codePcPatches)
               == multiset(if x.isCode && Patched(env, x) then side + [PatchOf(env, x)] else side)
            && q.dataPatches == if !x.isCode && Patched(env, x) then p.dataPatches + [PatchOf(env, x)] else p.dataPatches
  {
    hide PatchOf, TargetVa, TargetFor, WithFixup, ModulesAfter;
    var q := Step(env, p, x);
    assert multiset(p.codePatches + p.codePcPatches) == multiset(p.codePatches) + multiset(p.codePcPatches);
    assert multiset(q.codePatches + q.codePcPatches) == multiset(q.codePatches) + multiset(q.codePcPatches);
    assert multiset(side + [PatchOf(env, x)]) == multiset(side) + multiset{PatchOf(env, x)};
  }

  lemma {:induction false} FoldPatches(env: Env, items: seq<Item>)
    ensures multiset(Fold(env, items).codePatches + Fold(env, items).codePcPatches) == multiset(SidePatches(env, items, true))
    ensures Fold(env, items).dataPatches == SidePatches(env, items, false)
  {
    hide PatchOf, Patched, Step;
    if items != [] {
      var init, x := items[..|items| - 1], items[|items| - 1];
      FoldPatches(env, init);
      StepPatches(env, Fold(env, init), x, SidePatches(env, init, true));
    }
  }

  /** The linker's page-padded, patched buffer. */
  function ImageSide(m: Image, isCode: bool): seq<byte> {
    if isCode then m.code else m.data
  }

  /** Every patch the linker computes is in its image. */
  lemma PatchesLand(env: Env)
    requires Linkable(env)
    ensures forall i :: 0 <= i < |Items(env)| && Patched(env, Items(env)[i]) ==>
              Landed(ImageSide(ImageOf(env), Items(env)[i].isCode), PatchOf(env, Items(env)[i]))
  {
    hide Items, Fold, Linkable, PatchOf, Patched, Landed, L.AllFit, NoneEmpty, Apply;
    LinkableParts(env);
    var items := Items(env);
    var p := Fold(env, items);
    FoldPatches(env, items);
    SidePatchesApart(env, items, true);
    SidePatchesApart(env, items, false);
    SidePatchesFrom(env, items, true);
    SidePatchesFrom(env, items, false);
    PaddedLanded(env.state.code.data, SidePatches(env, items, true), p.codePatches, p.codePcPatches);
    PaddedLanded(env.state.data.data, SidePatches(env, items, false), p.dataPatches, []);
    assert p.dataPatches + [] == p.dataPatches;
  }

  lemma PaddedLanded(data: seq<byte>, all: seq<Write>, first: seq<Write>, second: seq<Write>)
    requires PairwiseApart(all) && NoneEmpty(all) && L.AllFit(all, |data|)
    requires multiset(all) == multiset(first + second)
    ensures forall w :: w in all ==> Landed(PadToPage(Apply(Apply(data, first), second)), w)
    ensures second == [] ==> PadToPage(Apply(Apply(data, first), second)) == PadToPage(Apply(data, first))
  {
    ApplyConcat(data, first, second);
    ApplyRearranged(data, all, first + second);
    var patched := Apply(data, first + second);
    forall w | w in all
      ensures Landed(PadToPage(patched), w)
    {
      PadKeepsLanded(patched, w);
    }
  }

  lemma PadKeepsLanded(data: seq<byte>, w: Write)
    requires Landed(data, w)
    ensures Landed(PadToPage(data), w)
  {
    assert PadToPage(data)[w.addr..w.addr + |w.data|] == data[w.addr..w.addr + |w.data|];
  }

  // ----- comparing the two -----

  /** The region of memory at `base` holds `content`. */
  predicate Holds(r: seq<byte>, base: nat, content: seq<byte>) {
    base + |content| <= |r| && r[base..base + |content|] == content
  }

  /** Code and data in memory are the linker's patched images. */
  predicate AsPatched(m: Image, r: seq<byte>) {
    Holds(r, CODE_OBJECT_BASE, m.code) && Holds(r, DATA_OBJECT_BASE, m.data)
  }

  predicate NoAddends(env: Env) {
    forall i :: 0 <= i < |Items(env)| && Resolved(env, Items(env)[i]) ==> Items(env)[i].reloc.addend % TWO32 == 0
  }

  lemma AddendVanishes(target: u32, addend: int)
    ensures (target + addend) % TWO32 == target <==> addend % TWO32 == 0
  {
  }

  /** At a resolved site the patched word is the loaded word exactly when the addend vanishes. */
  lemma SiteAgrees(env: Env, x: Item)
    requires Resolved(env, x)
    ensures PatchOf(env, x).data == TargetWrite(env, x).data <==> x.reloc.addend % TWO32 == 0
  {
    hide U32, Get32, TargetVa;
    var target := TargetVa(env, x.reloc.target);
    AddendVanishes(target, x.reloc.addend);
    WordValue(target);
    WordValue((target + x.reloc.addend) % TWO32);
  }

  lemma ByteOf(r: seq<byte>, w: Write, x: nat)
    requires Landed(r, w) && w.addr <= x < w.addr + |w.data|
    ensures r[x] == w.data[x - w.addr]
  {
    assert r[w.addr..w.addr + |w.data|][x - w.addr] == r[x];
  }

  /** A byte of an object region, when no resolved site has an addend. */
  lemma RegionByte(env: Env, mem: seq<byte>, r: seq<byte>, isCode: bool, k: nat)
    requires Linkable(env) && MEMORY_TOP <= |mem| && LoadedRight(env, mem, r) && NoAddends(env)
    requires k < |ImageSide(ImageOf(env), isCode)|
    ensures ObjectBase(isCode) + k < |r| && r[ObjectBase(isCode) + k] == ImageSide(ImageOf(env), isCode)[k]
  {
    hide Linkable, Items, TargetWrites, ImageOf, Landed, PatchOf, TargetWrite, Resolved, Patched;
    LinkableParts(env);
    ImageSizes(env);
    var x, targets := ObjectBase(isCode) + k, TargetWrites(env, Items(env));
    if Covered(targets, x) {
      CoveredByte(env, mem, r, isCode, k);
    } else {
      assert r[x] == Mapped(ImageOf(env), mem, x);
    }
  }

  /** An address the target words cover belongs to the word of some resolved item. */
  lemma CoveringItem(env: Env, x: int) returns (i: nat)
    requires Covered(TargetWrites(env, Items(env)), x)
    ensures i < |Items(env)| && Resolved(env, Items(env)[i])
    ensures ObjectBase(Items(env)[i].isCode) + Items(env)[i].at <= x < ObjectBase(Items(env)[i].isCode) + Items(env)[i].at + 4
  {
    hide Items, TargetWrites, Resolved, TargetWrite;
    var items, targets := Items(env), TargetWrites(env, Items(env));
    var j :| 0 <= j < |targets| && targets[j].addr <= x < targets[j].addr + |targets[j].data|;
    TargetWritesFrom(env, items);
    assert FromItem(env, items, targets[j]);
    i :| 0 <= i < |items| && Resolved(env, items[i]) && targets[j] == TargetWrite(env, items[i]);
    ResolvedShape(env, items[i]);
  }

  lemma CoveredByte(env: Env, mem: seq<byte>, r: seq<byte>, isCode: bool, k: nat)
    requires Linkable(env) && LoadedRight(env, mem, r) && NoAddends(env)
    requires k < |ImageSide(ImageOf(env), isCode)| && Covered(TargetWrites(env, Items(env)), ObjectBase(isCode) + k)
    ensures ObjectBase(isCode) + k < |r| && r[ObjectBase(isCode) + k] == ImageSide(ImageOf(env), isCode)[k]
  {
    hide Linkable, Items, TargetWrites, ImageOf, Landed, PatchOf, TargetWrite, Resolved, Patched, Mapped, Covered;
    LinkableParts(env);
    ImageSizes(env);
    PatchesLand(env);
    var x := ObjectBase(isCode) + k;
    var i := CoveringItem(env, x);
    var item := Items(env)[i];
    SiteAgrees(env, item);
    ResolvedShape(env, item);
    assert InSection(env, item) && item.isCode == isCode;
    LandedFits(r, TargetWrite(env, item));
    ByteOf(r, TargetWrite(env, item), x);
    ByteOf(ImageSide(ImageOf(env), isCode), PatchOf(env, item), k);
  }

  lemma LandedFits(r: seq<byte>, w: Write)
    requires Landed(r, w)
    ensures w.addr + |w.data| <= |r|
  {
  }

  lemma ResolvedShape(env: Env, x: Item)
    requires Resolved(env, x)
    ensures Patched(env, x) && PatchOf(env, x).addr == x.at && |PatchOf(env, x).data| == 4
    ensures TargetWrite(env, x).addr == ObjectBase(x.isCode) + x.at && |TargetWrite(env, x).data| == 4
  {
  }

  /** When the regions agree, so do the two words at a resolved site. */
  lemma AgreeingSite(env: Env, r: seq<byte>, x: Item)
    requires Resolved(env, x) && Landed(r, TargetWrite(env, x)) && Landed(ImageSide(ImageOf(env), x.isCode), PatchOf(env, x))
    requires AsPatched(ImageOf(env), r)
    ensures x.reloc.addend % TWO32 == 0
  {
    hide ImageOf, PatchOf, TargetWrite, Resolved;
    ResolvedShape(env, x);
    SiteAgrees(env, x);
    var side, base := ImageSide(ImageOf(env), x.isCode), ObjectBase(x.isCode);
    var w, v := TargetWrite(env, x), PatchOf(env, x);
    forall k | 0 <= k < 4
      ensures w.data[k] == v.data[k]
    {
      ByteOf(r, w, base + x.at + k);
      ByteOf(side, v, x.at + k);
      assert r[base..base + |side|][x.at + k] == side[x.at + k];
    }
    assert w.data == v.data;
  }

  /** With the facts about a loaded memory, equality with the patched images is the absence of addends. */
  lemma PatchedIffNoAddends(env: Env, mem: seq<byte>, r: seq<byte>)
    requires Linkable(env) && MEMORY_TOP <= |mem| && LoadedRight(env, mem, r)
    ensures AsPatched(ImageOf(env), r) <==> NoAddends(env)
  {
    hide Linkable, Items, TargetWrites, ImageOf, Landed, PatchOf, TargetWrite, Resolved, Patched, Mapped, Covered;
    PatchesLand(env);
    var m := ImageOf(env);
    if AsPatched(m, r) {
      forall i | 0 <= i < |Items(env)| && Resolved(env, Items(env)[i])
        ensures Items(env)[i].reloc.addend % TWO32 == 0
      {
        ResolvedShape(env, Items(env)[i]);
        AgreeingSite(env, r, Items(env)[i]);
      }
    }
    if NoAddends(env) {
      RegionHolds(env, mem, r, true);
      RegionHolds(env, mem, r, false);
    }
  }

  lemma RegionHolds(env: Env, mem: seq<byte>, r: seq<byte>, isCode: bool)
    requires Linkable(env) && MEMORY_TOP <= |mem| && LoadedRight(env, mem, r) && NoAddends(env)
    ensures Holds(r, ObjectBase(isCode), ImageSide(ImageOf(env), isCode))
  {
    hide Linkable, LoadedRight, NoAddends, ImageOf;
    var side, base := ImageSide(ImageOf(env), isCode), ObjectBase(isCode);
    if |side| > 0 {
      RegionByte(env, mem, r, isCode, |side| - 1);
    } else {
      BaseFits(env, mem, r, isCode);
    }
    forall k | 0 <= k < |side|
      ensures r[base + k] == side[k]
    {
      RegionByte(env, mem, r, isCode, k);
    }
  }

  lemma BaseFits(env: Env, mem: seq<byte>, r: seq<byte>, isCode: bool)
    requires MEMORY_TOP <= |mem| && LoadedRight(env, mem, r)
    ensures ObjectBase(isCode) <= |r|
  {
  }

  /**
   * Loading gives back the linker's patched images exactly when every resolved absolute
   * relocation has addend zero (modulo 2^32).
   */
  lemma LoadedIsPatchedIff(env: Env, symbols: Symbols, mem: seq<byte>)
    requires Linkable(env) && BssInPadding(env.state) && MEMORY_TOP <= |mem| <= TWO32
    ensures ImageOf(env).Valid() && ImageOf(env).Fits() && Expected(ImageOf(env)).header.Valid()
    ensures L.SitesIn(L.Sites(Expected(ImageOf(env))), 3)
    ensures AsPatched(ImageOf(env), Loaded(ImageOf(env), symbols, mem)) <==> NoAddends(env)
  {
    hide *;
    LoadOfLink(env, symbols, mem);
    PatchedIffNoAddends(env, mem, Loaded(ImageOf(env), symbols, mem));
  }

  // ----- an addend that is lost -----

  const SAMPLE_RELOC := Reloc(0, Absolute, 4, Section(".text"))

  /** Eight bytes of code whose first word should hold the address of the fifth. */
  const SAMPLE := ElfObject([ElfSection(".text", Text, Zeros(8), 1, [SAMPLE_RELOC])], [ElfSymbol("_start", Some(0), 0)])

  function SampleEnv(): Env
    requires AllValid([SAMPLE])
  {
    Env([SAMPLE], Built([SAMPLE]), map[])
  }

  lemma SampleBuilds()
    ensures AllValid([SAMPLE])
    ensures var s := Built([SAMPLE]);
            && s.code.data == Zeros(8) && s.code.inputMap == [InputEntry(0, 0, 0)] && s.code.va == CODE_OBJECT_BASE
            && s.data.data == [] && s.data.bssSize == 0 && "_start" in s.symbols && s.symbols["_start"] == CODE_OBJECT_BASE
  {
    var objects := [SAMPLE];
    var start := Merged([], 0, CODE_OBJECT_BASE, []);
    var code := Appended(start, 0, 0, SAMPLE.sections[0]);
    assert code.data == Zeros(8) && code.inputMap == [InputEntry(0, 0, 0)];
    assert CodePlaced(start, 0, SAMPLE, 0) == start;
    assert CodePlaced(start, 0, SAMPLE, 1) == code;
    assert AllCode(objects, 0) == start && AllCode(objects, 1) == code;
    var empty := Merged([], 0, DATA_OBJECT_BASE, []);
    assert DataPlaced(empty, 0, SAMPLE, 0) == empty && DataPlaced(empty, 0, SAMPLE, 1) == empty;
    assert AllData(objects, 0) == empty && AllData(objects, 1) == empty;
    assert FindMergedVa(code, 0, 0, 0) == None && FindMergedVa(code, 0, 0, 1) == Some(CODE_OBJECT_BASE);
    assert SymbolsOf(objects, code, empty, map[], 0, 0) == map[];
    assert SymbolsOf(objects, code, empty, map[], 0, 1) == map["_start" := CODE_OBJECT_BASE];
    assert AllSymbols(objects, code, empty, 0) == map[];
    assert AllSymbols(objects, code, empty, 1) == map["_start" := CODE_OBJECT_BASE];
  }

  lemma SampleItems()
    ensures AllValid([SAMPLE]) && Items(SampleEnv()) == [Item(true, 0, SAMPLE_RELOC)]
  {
    SampleBuilds();
    var env, x := SampleEnv(), Item(true, 0, SAMPLE_RELOC);
    assert FindMergedVa(env.state.code, 0, 0, 0) == None && FindMergedVa(env.state.code, 0, 0, 1) == Some(CODE_OBJECT_BASE);
    assert SectionVa(env.objects, env.state.code, env.state.data, 0, 0) == Some(CODE_OBJECT_BASE);
    assert RelocItems(true, 0, [SAMPLE_RELOC], 1) == [x];
    assert SectionItems(env, 0, 0) == [x];
    assert ObjectItems(env, 0, 0) == [] && ObjectItems(env, 0, 1) == [] + [x];
    assert Items(env, 0) == [] && Items(env, 1) == [] + [x];
  }

  /** A concrete input on which the loaded memory is not the linker's patched image. */
  lemma AnAddendIsLost(symbols: Symbols, mem: seq<byte>)
    requires MEMORY_TOP <= |mem| <= TWO32
    ensures AllValid([SAMPLE]) && Linkable(SampleEnv())
    ensures var m := ImageOf(SampleEnv());
            && m.Valid() && m.Fits() && Expected(m).header.Valid() && L.SitesIn(L.Sites(Expected(m)), 3)
            && !AsPatched(m, Loaded(m, symbols, mem))
  {
    SampleBuilds();
    SampleItems();
    var env := SampleEnv();
    SampleIsLinkable(env);
    LoadedIsPatchedIff(env, symbols, mem);
  }

  lemma SampleIsLinkable(env: Env)
    requires AllValid([SAMPLE]) && env == SampleEnv() && Items(env) == [Item(true, 0, SAMPLE_RELOC)]
    requires env.state.code.data == Zeros(8) && env.state.data.data == [] && env.state.data.bssSize == 0
    requires env.state.code.inputMap == [InputEntry(0, 0, 0)] && env.state.code.va == CODE_OBJECT_BASE
    ensures Linkable(env) && BssInPadding(env.state) && !NoAddends(env)
  {
    hide Items, Built, AllValid;
    var x := Items(env)[0];
    assert FindMergedVa(env.state.code, 0, 0, 0) == None && FindMergedVa(env.state.code, 0, 0, 1) == Some(CODE_OBJECT_BASE);
    assert FindSectionIn(env.objects, env.state, ".text", 0, 0) == Some(Some(CODE_OBJECT_BASE));
    assert MeaningOf(env, x.reloc.target) == Local(CODE_OBJECT_BASE);
    assert Resolved(env, x) && x.reloc.addend % TWO32 == 4;
  }

  // ----- relative sites -----

  predicate Jump(env: Env, x: Item) {
    x.reloc.kind == Relative && TargetVa(env, x.reloc.target) != 0
  }

  /**
   * A loaded PC-relative word, added to the address behind it, gives the target plus the
   * addend: no fixup record touches it.
   */
  lemma JumpsReachTargets(env: Env, mem: seq<byte>, r: seq<byte>, i: nat)
    requires Linkable(env) && MEMORY_TOP <= |mem| && LoadedRight(env, mem, r)
    requires i < |Items(env)| && Jump(env, Items(env)[i])
    ensures var x := Items(env)[i];
            var site := ObjectBase(x.isCode) + x.at;
            site + 4 <= |r| && (Get32(r, site) + site + 4) % TWO32 == (TargetVa(env, x.reloc.target) + x.reloc.addend) % TWO32
  {
    hide Linkable, Items, LoadedRight, ImageOf, Landed, Get32, TargetVa, PatchOf;
    PatchesLand(env);
    var x := Items(env)[i];
    var site, side := ObjectBase(x.isCode) + x.at, ImageSide(ImageOf(env), x.isCode);
    JumpByte(env, mem, r, i, 0);
    JumpByte(env, mem, r, i, 1);
    JumpByte(env, mem, r, i, 2);
    JumpByte(env, mem, r, i, 3);
    SameWord(r, site, side, x.at);
    JumpWord(side, env, x);
    JumpSum(TargetVa(env, x.reloc.target), site, x.reloc.addend);
  }

  /** Byte `k` behind `i` in `r` is byte `k` behind `j` in `s`. */
  predicate SameByte(r: seq<byte>, i: nat, s: seq<byte>, j: nat, k: nat) {
    i + k < |r| && j + k < |s| && r[i + k] == s[j + k]
  }

  lemma SameWord(r: seq<byte>, i: nat, s: seq<byte>, j: nat)
    requires SameByte(r, i, s, j, 0) && SameByte(r, i, s, j, 1) && SameByte(r, i, s, j, 2) && SameByte(r, i, s, j, 3)
    ensures i + 4 <= |r| && j + 4 <= |s| && Get32(r, i) == Get32(s, j)
  {
  }

  lemma JumpWord(side: seq<byte>, env: Env, x: Item)
    requires Jump(env, x) && Landed(side, PatchOf(env, x))
    ensures Get32(side, x.at) == (TargetVa(env, x.reloc.target) - (ObjectBase(x.isCode) + x.at + 4) + x.reloc.addend) % TWO32
  {
    hide Get32, U32, TargetVa;
    Get32IsU32(side, x.at, (TargetVa(env, x.reloc.target) - (ObjectBase(x.isCode) + x.at + 4) + x.reloc.addend) % TWO32);
  }

  lemma JumpSum(target: u32, site: nat, addend: int)
    ensures ((target - (site + 4) + addend) % TWO32 + site + 4) % TWO32 == (target + addend) % TWO32
  {
  }

  /** A jump's bytes are loaded as they are in the image. */
  lemma JumpByte(env: Env, mem: seq<byte>, r: seq<byte>, i: nat, k: nat)
    requires Linkable(env) && MEMORY_TOP <= |mem| && LoadedRight(env, mem, r)
    requires i < |Items(env)| && Jump(env, Items(env)[i]) && k < 4
    ensures var x := Items(env)[i];
            var site, side := ObjectBase(x.isCode) + x.at, ImageSide(ImageOf(env), x.isCode);
            SameByte(r, site, side, x.at, k)
  {
    hide Linkable, Items, TargetWrites, ImageOf, Landed, TargetVa, Covered, Resolved, TargetWrite, SitesApart, ImportsKnown;
    LinkableParts(env);
    ImageSizes(env);
    assert InSection(env, Items(env)[i]);
    hide AllInSection;
    JumpNotCovered(env, i, k);
    assert r[ObjectBase(Items(env)[i].isCode) + Items(env)[i].at + k]
        == Mapped(ImageOf(env), mem, ObjectBase(Items(env)[i].isCode) + Items(env)[i].at + k);
  }

  lemma JumpNotCovered(env: Env, i: nat, k: nat)
    requires Linkable(env) && i < |Items(env)| && Jump(env, Items(env)[i]) && k < 4
    ensures !Covered(TargetWrites(env, Items(env)), ObjectBase(Items(env)[i].isCode) + Items(env)[i].at + k)
  {
    hide Linkable, Items, TargetWrites, TargetVa, ImportsKnown, Covered;
    LinkableParts(env);
    var x := Items(env)[i];
    var at := ObjectBase(x.isCode) + x.at + k;
    assert forall l :: 0 <= l < |Items(env)| ==> InSection(env, Items(env)[l]);
    if Covered(TargetWrites(env, Items(env)), at) {
      var l := CoveringItem(env, at);
      assert false;
    }
  }

  // ----- addends kept in the section -----

  /** The word that the section itself has at the site of a relocation. */
  function InPlace(env: Env, x: Item): u32
    requires InSection(env, x)
  {
    Get32(Buffer(env, x.isCode), x.at)
  }

  /**
   * The linker overwrites the section's own word, so an addend kept there is lost: the loaded
   * word accounts for it if and only if it is zero, at absolute and at relative sites.
   */
  lemma InPlaceAddendIsLost(env: Env, mem: seq<byte>, r: seq<byte>, i: nat)
    requires Linkable(env) && MEMORY_TOP <= |mem| && LoadedRight(env, mem, r)
    requires i < |Items(env)| && (Resolved(env, Items(env)[i]) || Jump(env, Items(env)[i]))
    ensures InSection(env, Items(env)[i])
    ensures var x := Items(env)[i];
            var target, own, site := TargetVa(env, x.reloc.target), InPlace(env, x), ObjectBase(x.isCode) + x.at;
            && site + 4 <= |r|
            && (Resolved(env, x) ==> (Get32(r, site) == (target + own) % TWO32 <==> own == 0))
            && (Jump(env, x) ==>
                  ((Get32(r, site) + site + 4) % TWO32 == (target + x.reloc.addend + own) % TWO32 <==> own == 0))
  {
    hide Linkable, Items, LoadedRight, Get32, TargetVa, Resolved, Jump, InPlace;
    ItemInSection(env, i);
    hide InSection;
    if Resolved(env, Items(env)[i]) {
      ResolvedLosesOwn(env, mem, r, i);
    }
    if Jump(env, Items(env)[i]) {
      JumpLosesOwn(env, mem, r, i);
    }
  }

  lemma ItemInSection(env: Env, i: nat)
    requires Linkable(env) && i < |Items(env)|
    ensures InSection(env, Items(env)[i])
  {
    hide Items, InSection;
    LinkableParts(env);
  }

  lemma ResolvedLosesOwn(env: Env, mem: seq<byte>, r: seq<byte>, i: nat)
    requires LoadedRight(env, mem, r) && i < |Items(env)| && Resolved(env, Items(env)[i]) && InSection(env, Items(env)[i])
    ensures var x := Items(env)[i];
            var target, own, site := TargetVa(env, x.reloc.target), InPlace(env, x), ObjectBase(x.isCode) + x.at;
            site + 4 <= |r| && (Get32(r, site) == (target + own) % TWO32 <==> own == 0)
  {
    hide Items, LoadedRight, Get32, TargetVa, Resolved, InPlace;
    var x := Items(env)[i];
    var target := TargetVa(env, x.reloc.target);
    ResolvedWord(env, mem, r, i);
    OwnWordCounts(target, target, InPlace(env, x));
  }

  lemma JumpLosesOwn(env: Env, mem: seq<byte>, r: seq<byte>, i: nat)
    requires Linkable(env) && MEMORY_TOP <= |mem| && LoadedRight(env, mem, r)
    requires i < |Items(env)| && Jump(env, Items(env)[i]) && InSection(env, Items(env)[i])
    ensures var x := Items(env)[i];
            var target, own, site := TargetVa(env, x.reloc.target), InPlace(env, x), ObjectBase(x.isCode) + x.at;
            && site + 4 <= |r|
            && ((Get32(r, site) + site + 4) % TWO32 == (target + x.reloc.addend + own) % TWO32 <==> own == 0)
  {
    hide Linkable, Items, LoadedRight, Get32, TargetVa, Jump, InPlace, InSection;
    var x := Items(env)[i];
    var sum := TargetVa(env, x.reloc.target) + x.reloc.addend;
    JumpsReachTargets(env, mem, r, i);
    OwnWordCounts(sum % TWO32, sum, InPlace(env, x));
  }

  lemma ResolvedWord(env: Env, mem: seq<byte>, r: seq<byte>, i: nat)
    requires LoadedRight(env, mem, r) && i < |Items(env)| && Resolved(env, Items(env)[i])
    ensures var x := Items(env)[i];
            var site := ObjectBase(x.isCode) + x.at;
            site + 4 <= |r| && Get32(r, site) == TargetVa(env, x.reloc.target)
  {
    hide Items, Get32, U32, TargetVa;
    var x := Items(env)[i];
    assert Landed(r, TargetWrite(env, x));
    Get32IsU32(r, ObjectBase(x.isCode) + x.at, TargetVa(env, x.reloc.target));
  }

  lemma OwnWordCounts(word: u32, sum: int, own: u32)
    requires word == sum % TWO32
    ensures word == (sum + own) % TWO32 <==> own == 0
  {
    AddendVanishes(word, own);
    assert (sum + own) % TWO32 == (word + own) % TWO32;
  }

  // ----- the whole chain -----

  /**
   * Link, write, parse and load in one go.  The load succeeds if and only if uninitialised
   * data fits in the padding of the last data page.
   */
  method LinkAndLoad(env: Env, symbols: Symbols, mem: GuestMemory) returns (outcome: Result<L.Outcome, F.ParseError>)
    requires Linkable(env) && MEMORY_TOP <= mem.bytes.Length <= TWO32
    modifies mem.bytes
    ensures outcome == Ok(L.Loaded) <==> BssInPadding(env.state)
    ensures outcome == Ok(L.Loaded) ==>
              && LoadedRight(env, old(mem.Contents()), mem.Contents())
              && (AsPatched(ImageOf(env), mem.Contents()) <==> NoAddends(env))
  {
    hide Linkable, LoadedRight, AsPatched, NoAddends, ImageOf, Parts, Join, Expected, P.ParseSpec, L.Sites, L.AllFit, L.LoadWrites, L.PagesReadable, Apply;
    hide BssInPadding;
    LinkableParts(env);
    LinkableFits(env);
    ghost var was := mem.Contents();
    if BssInPadding(env.state) {
      LoadOfLink(env, symbols, was);
      PatchedIffNoAddends(env, was, Loaded(ImageOf(env), symbols, was));
    } else {
      BssNeverLoads(env);
    }
    var file, _ := WriteLx(env);
    var parsed :- P.Parse(file);
    var loaded := L.Load(mem, parsed, file, symbols);
    return Ok(loaded);
  }

  // ----- uninitialised data that is lost -----

  /** One byte of data, and an uninitialised section without bytes, aligned to 8192. */
  const BSS_SAMPLE := ElfObject([ElfSection(".data", Data, [0], 1, []), ElfSection(".bss", UninitializedData, [], 8192, [])], [])

  lemma BssSampleIsValid()
    ensures AllValid([BSS_SAMPLE])
  {
    assert PowerOfTwo(1) && PowerOfTwo(16);
    assert PowerOfTwo(256);
    assert PowerOfTwo(8192);
  }

  function BssEnv(): Env
    requires AllValid([BSS_SAMPLE])
  {
    Env([BSS_SAMPLE], Built([BSS_SAMPLE]), map[])
  }

  /** A concrete input whose file parses and never loads, as `BssNeverLoads` says. */
  lemma SomeBssNeverLoads()
    ensures AllValid([BSS_SAMPLE]) && Linkable(BssEnv()) && !BssInPadding(BssEnv().state)
    ensures ImageOf(BssEnv()).Total() <= P.MAX_PAGES
  {
    hide PowerOfTwo;
    BssSampleIsValid();
    var objects, env := [BSS_SAMPLE], BssEnv();
    var code, data := Merged([], 0, CODE_OBJECT_BASE, []), Merged([], 0, DATA_OBJECT_BASE, []);
    var placed := Merged([0], 0, DATA_OBJECT_BASE, [InputEntry(0, 0, 0)]);
    assert CodePlaced(code, 0, BSS_SAMPLE, 1) == code && CodePlaced(code, 0, BSS_SAMPLE, 2) == code;
    assert AllCode(objects, 0) == code && AllCode(objects, 1) == code;
    assert DataPlaced(data, 0, BSS_SAMPLE, 0) == data && DataPlaced(data, 0, BSS_SAMPLE, 1) == placed;
    assert DataPlaced(data, 0, BSS_SAMPLE, 2) == placed.(bssSize := 8191);
    assert AllData(objects, 0) == data && AllData(objects, 1) == placed.(bssSize := 8191);
    assert SectionItems(env, 0, 0) == [] && SectionItems(env, 0, 1) == [];
    assert ObjectItems(env, 0, 1) == [] && ObjectItems(env, 0, 2) == [];
    assert Items(env, 0) == [] && Items(env, 1) == [];
    BssPages(env);
  }

  lemma BssPages(env: Env)
    requires env.state.code.data == [] && env.state.code.bssSize == 0 && |env.state.data.data| == 1 && env.state.data.bssSize == 8191
    ensures ImageOf(env).Total() == 2 + STACK_PAGES
  {
    hide Fold, Items;
    FoldKeepsPages(env, Items(env));
  }
}
