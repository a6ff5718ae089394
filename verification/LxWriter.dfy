/**
 * Relocation and LX output (src/bin/lx_link.rs, `mod lx_writer`).
 *
 * The relocation pass is specified as a fold over the list of relocations in input order,
 * the file as the joined list of its parts.
 */
module LxWriter {
  import opened Bytes
  import opened Wrappers
  import opened GuestMem
  import opened LinkerState
  import opened Imports

  const PAGE_SIZE := 4096
  const STACK_SIZE := 0x1_0000
  const STACK_PAGES := 16
  const STACK_OBJECT_BASE := 0x7_0000
  const LX_HEADER_OFFSET := 0x40
  const LX_HEADER_SIZE := 172

  datatype LxTarget =
    | InternalTarget(objectNum: byte, targetOffset: u32)
    | OrdinalTarget(moduleIdx: byte, ordinal: u32)

  datatype LxFixup = LxFixup(sourceType: byte, sourceOffset: u16, target: LxTarget)

  datatype Env = Env(objects: seq<ElfObject>, state: State, defs: map<string, (string, u32)>) {
    predicate Valid() { AllValid(objects) && state == Built(objects) }
  }

  // ----- resolving one relocation -----

  /** `va_to_lx_object`. */
  function VaToLxObject(va: u32): LxTarget {
    if va >= DATA_OBJECT_BASE then InternalTarget(2, va - DATA_OBJECT_BASE)
    else InternalTarget(1, (va - CODE_OBJECT_BASE) % TWO32)
  }

  /** `find_section_va`: the first section of that name, looked up in code, then in data. */
  function FindSectionIn(objects: seq<ElfObject>, s: State, name: string, obj: nat, sec: nat): Option<Option<nat>>
    requires obj < |objects| && sec <= |objects[obj].sections|
    decreases |objects[obj].sections| - sec
  {
    if sec == |objects[obj].sections| then None
    else if objects[obj].sections[sec].name == name then
      var code := FindMergedVa(s.code, obj, sec);
      Some(if code.Some? then code else FindMergedVa(s.data, obj, sec))
    else FindSectionIn(objects, s, name, obj, sec + 1)
  }

  function FindSectionVa(objects: seq<ElfObject>, s: State, name: string, obj: nat := 0): Option<nat>
    requires obj <= |objects|
    decreases |objects| - obj
  {
    if obj == |objects| then None
    else
      match FindSectionIn(objects, s, name, obj, 0)
      case Some(va) => va
      case None => FindSectionVa(objects, s, name, obj + 1)
  }

  datatype Import = Import(moduleName: string, ordinal: u32)

  /** What a relocation refers to: an address here, or an import. */
  datatype Meaning = Undefined | Local(va: u32) | Imported(imp: Import)

  function MeaningOf(env: Env, t: RelocTarget): Meaning {
    match t
    case Symbol(name) =>
      if name in env.state.symbols then Local(env.state.symbols[name])
      else if name in env.defs then Imported(Import(env.defs[name].0, env.defs[name].1))
      else Undefined
    case Section(name) =>
      match FindSectionVa(env.objects, env.state, name)
      case Some(va) => Local(va % TWO32)
      case None => Undefined
  }

  /** The address the linker resolves to; zero for an undefined target. */
  function TargetVa(env: Env, t: RelocTarget): u32 {
    match MeaningOf(env, t)
    case Undefined => 0
    case Local(va) => va
    case Imported(imp) => LinkerResolve(imp.moduleName, imp.ordinal)
  }

  /** One-based position of `name`, or 0. */
  function IndexOf(modules: seq<string>, name: string): (i: nat)
    ensures i <= |modules| && (i > 0 ==> modules[i - 1] == name) && (i == 0 ==> name !in modules)
  {
    if modules == [] then 0
    else if modules[|modules| - 1] == name then |modules|
    else IndexOf(modules[..|modules| - 1], name)
  }

  /** `get_or_insert_module` on the list of names. */
  function Interned(modules: seq<string>, name: string): seq<string> {
    if name in modules then modules else modules + [name]
  }

  function ModulesAfter(env: Env, modules: seq<string>, t: RelocTarget): seq<string> {
    match MeaningOf(env, t)
    case Imported(imp) => Interned(modules, imp.moduleName)
    case _ => modules
  }

  /** The fixup target, for `modules` after interning. */
  function TargetFor(env: Env, modules: seq<string>, t: RelocTarget): Option<LxTarget> {
    match MeaningOf(env, t)
    case Undefined => None
    case Local(va) => Some(VaToLxObject(va))
    case Imported(imp) => Some(OrdinalTarget(IndexOf(modules, imp.moduleName) % 0x100, imp.ordinal))
  }

  // ----- the relocation pass -----

  /** A relocation and its place: in code or data, at `at` in the merged buffer. */
  datatype Item = Item(isCode: bool, at: nat, reloc: Reloc)

  datatype Pass = Pass(
    modules: seq<string>,
    codeFixups: seq<seq<LxFixup>>, dataFixups: seq<seq<LxFixup>>,
    codePatches: seq<Write>, dataPatches: seq<Write>, codePcPatches: seq<Write>)

  function ObjectBase(isCode: bool): u32 {
    if isCode then CODE_OBJECT_BASE else DATA_OBJECT_BASE
  }

  function PatchOf(env: Env, x: Item): Write {
    var target := TargetVa(env, x.reloc.target);
    if x.reloc.kind == Absolute
    then Write(x.at, U32((target + x.reloc.addend) % TWO32))
    else Write(x.at, U32((target - (ObjectBase(x.isCode) + x.at + 4) + x.reloc.addend) % TWO32))
  }

  /** Push a fixup onto its page, if the page exists. */
  function WithFixup(pages: seq<seq<LxFixup>>, at: nat, target: LxTarget): seq<seq<LxFixup>> {
    var page := at / PAGE_SIZE;
    if page < |pages|
    then pages[page := pages[page] + [LxFixup(0x07, at % PAGE_SIZE, target)]]
    else pages
  }

  /** One relocation of the pass. */
  function Step(env: Env, p: Pass, x: Item): Pass {
    var modules := ModulesAfter(env, p.modules, x.reloc.target);
    var q := p.(modules := modules);
    var patch := PatchOf(env, x);
    if TargetVa(env, x.reloc.target) == 0 then q
    else
      match x.reloc.kind
      case Absolute =>
        var target := TargetFor(env, modules, x.reloc.target);
        if x.isCode then
          q.(codePatches := q.codePatches + [patch],
             codeFixups := if target.Some? then WithFixup(q.codeFixups, x.at, target.value) else q.codeFixups)
        else
          q.(dataPatches := q.dataPatches + [patch],
             dataFixups := if target.Some? then WithFixup(q.dataFixups, x.at, target.value) else q.dataFixups)
      case Relative =>
        if x.isCode then q.(codePcPatches := q.codePcPatches + [patch])
        else q.(dataPatches := q.dataPatches + [patch])
      case OtherKind => q
  }

  function PageCount(dataLen: nat, bssSize: nat): nat {
    (dataLen + bssSize + PAGE_SIZE - 1) / PAGE_SIZE
  }

  function CodePages(s: State): nat { PageCount(|s.code.data|, s.code.bssSize) }
  function DataPages(s: State): nat { PageCount(|s.data.data|, s.data.bssSize) }

  function StartPass(s: State): Pass {
    Pass([], seq(CodePages(s), _ => []), seq(DataPages(s), _ => []), [], [], [])
  }

  function Fold(env: Env, items: seq<Item>): Pass {
    if items == [] then StartPass(env.state)
    else Step(env, Fold(env, items[..|items| - 1]), items[|items| - 1])
  }

  /** The relocations of one placed section. */
  function RelocItems(isCode: bool, bufBase: nat, relocs: seq<Reloc>, n: nat): seq<Item>
    requires n <= |relocs|
  {
    seq(n, i requires 0 <= i < n => Item(isCode, bufBase + relocs[i].offset, relocs[i]))
  }

  function SectionItems(env: Env, obj: nat, sec: nat): seq<Item>
    requires obj < |env.objects| && sec < |env.objects[obj].sections|
  {
    var s := env.objects[obj].sections[sec];
    var isCode := s.kind == Text;
    var va := SectionVa(env.objects, env.state.code, env.state.data, obj, sec);
    if va.Some? && va.value >= ObjectBase(isCode)
    then RelocItems(isCode, va.value - ObjectBase(isCode), s.relocs, |s.relocs|)
    else []
  }

  function ObjectItems(env: Env, obj: nat, n: nat): seq<Item>
    requires obj < |env.objects| && n <= |env.objects[obj].sections|
  {
    if n == 0 then [] else ObjectItems(env, obj, n - 1) + SectionItems(env, obj, n - 1)
  }

  /** The relocations of the first `n` objects, in the order the pass visits them. */
  function Items(env: Env, n: nat := |env.objects|): seq<Item>
    requires n <= |env.objects|
  {
    if n == 0 then [] else Items(env, n - 1) + ObjectItems(env, n - 1, |env.objects[n - 1].sections|)
  }

  lemma FoldPush(env: Env, items: seq<Item>, x: Item)
    ensures Fold(env, items + [x]) == Step(env, Fold(env, items), x)
  {
    assert (items + [x])[..|items|] == items;
  }

  /** The hash map beside the list: each listed name with its one-based position. */
  ghost predicate MapAgrees(m: map<string, byte>, modules: seq<string>) {
    && (forall name :: name in m <==> name in modules)
    && (forall name :: name in m ==> m[name] == IndexOf(modules, name) % 0x100)
  }

  method GetOrInsertModule(name: string, moduleMap: map<string, byte>, modules: seq<string>)
    returns (idx: byte, moduleMap': map<string, byte>, modules': seq<string>)
    requires MapAgrees(moduleMap, modules)
    ensures modules' == Interned(modules, name) && MapAgrees(moduleMap', modules')
    ensures idx == IndexOf(modules', name) % 0x100
  {
    if name in moduleMap {
      return moduleMap[name], moduleMap, modules;
    }
    modules' := modules + [name];
    idx := |modules'| % 0x100;
    moduleMap' := moduleMap[name := idx];
    forall other | other in moduleMap'
      ensures moduleMap'[other] == IndexOf(modules', other) % 0x100
    {
      assert modules'[..|modules|] == modules;
    }
  }

  method ResolveReloc(env: Env, r: Reloc, moduleMap: map<string, byte>, modules: seq<string>)
    returns (va: u32, target: Option<LxTarget>, moduleMap': map<string, byte>, modules': seq<string>)
    requires MapAgrees(moduleMap, modules)
    ensures modules' == ModulesAfter(env, modules, r.target) && MapAgrees(moduleMap', modules')
    ensures va == TargetVa(env, r.target) && target == TargetFor(env, modules', r.target)
  {
    moduleMap', modules' := moduleMap, modules;
    match r.target
    case Symbol(name) =>
      if name in env.state.symbols {
        va := env.state.symbols[name];
        target := Some(VaToLxObject(va));
      } else if name in env.defs {
        var (moduleName, ordinal) := env.defs[name];
        var idx: byte;
        idx, moduleMap', modules' := GetOrInsertModule(moduleName, moduleMap, modules);
        va, target := LinkerResolve(moduleName, ordinal), Some(OrdinalTarget(idx, ordinal));
      } else {
        va, target := 0, None;
      }
    case Section(name) =>
      var found := FindSectionVa(env.objects, env.state, name);
      if found.Some? {
        va := found.value % TWO32;
        target := Some(VaToLxObject(va));
      } else {
        va, target := 0, None;
      }
  }

  /** The body of the innermost loop of `write_lx`. */
  method RelocateOne(env: Env, x: Item, pass: Pass, moduleMap: map<string, byte>)
    returns (pass': Pass, moduleMap': map<string, byte>)
    requires MapAgrees(moduleMap, pass.modules)
    ensures pass' == Step(env, pass, x) && MapAgrees(moduleMap', pass'.modules)
  {
    var target: u32, fixup, modules;
    target, fixup, moduleMap', modules := ResolveReloc(env, x.reloc, moduleMap, pass.modules);
    pass' := pass.(modules := modules);
    if target != 0 {
      match x.reloc.kind
      case Absolute =>
        var patch := Write(x.at, U32((target + x.reloc.addend) % TWO32));
        if x.isCode {
          pass' := pass'.(codePatches := pass'.codePatches + [patch]);
        } else {
          pass' := pass'.(dataPatches := pass'.dataPatches + [patch]);
        }
        if fixup.Some? {
          if x.isCode {
            pass' := pass'.(codeFixups := WithFixup(pass'.codeFixups, x.at, fixup.value));
          } else {
            pass' := pass'.(dataFixups := WithFixup(pass'.dataFixups, x.at, fixup.value));
          }
        }
      case Relative =>
        var disp := target - (ObjectBase(x.isCode) + x.at + 4) + x.reloc.addend;
        if x.isCode {
          pass' := pass'.(codePcPatches := pass'.codePcPatches + [Write(x.at, U32(disp % TWO32))]);
        } else {
          pass' := pass'.(dataPatches := pass'.dataPatches + [Write(x.at, U32(disp % TWO32))]);
        }
      case OtherKind =>
    }
  }

  method RelocateSection(env: Env, obj: nat, sec: nat, pass: Pass, moduleMap: map<string, byte>, ghost done: seq<Item>)
    returns (pass': Pass, moduleMap': map<string, byte>)
    requires obj < |env.objects| && sec < |env.objects[obj].sections|
    requires pass == Fold(env, done) && MapAgrees(moduleMap, pass.modules)
    ensures pass' == Fold(env, done + SectionItems(env, obj, sec)) && MapAgrees(moduleMap', pass'.modules)
  {
    hide Fold, MapAgrees, SectionVa;
    pass', moduleMap' := pass, moduleMap;
    var s := env.objects[obj].sections[sec];
    var isCode := s.kind == Text;
    var va := SectionVa(env.objects, env.state.code, env.state.data, obj, sec);
    if va.None? || va.value < ObjectBase(isCode) {
      assert done + [] == done;
      return;
    }
    var bufBase := va.value - ObjectBase(isCode);
    ghost var all := SectionItems(env, obj, sec);
    assert done + all[..0] == done;
    for i := 0 to |s.relocs|
      invariant pass' == Fold(env, done + all[..i]) && MapAgrees(moduleMap', pass'.modules)
    {
      var x := Item(isCode, bufBase + s.relocs[i].offset, s.relocs[i]);
      pass', moduleMap' := RelocateOne(env, x, pass', moduleMap');
      FoldPush(env, done + all[..i], x);
      assert done + all[..i + 1] == (done + all[..i]) + [x];
    }
    assert all[..|s.relocs|] == all;
  }

  method RelocateObject(env: Env, obj: nat, pass: Pass, moduleMap: map<string, byte>, ghost done: seq<Item>)
    returns (pass': Pass, moduleMap': map<string, byte>)
    requires obj < |env.objects|
    requires pass == Fold(env, done) && MapAgrees(moduleMap, pass.modules)
    ensures pass' == Fold(env, done + ObjectItems(env, obj, |env.objects[obj].sections|))
    ensures MapAgrees(moduleMap', pass'.modules)
  {
    pass', moduleMap' := pass, moduleMap;
    assert done + [] == done;
    for s := 0 to |env.objects[obj].sections|
      invariant pass' == Fold(env, done + ObjectItems(env, obj, s)) && MapAgrees(moduleMap', pass'.modules)
    {
      ConcatAssoc(done, ObjectItems(env, obj, s), SectionItems(env, obj, s));
      pass', moduleMap' := RelocateSection(env, obj, s, pass', moduleMap', done + ObjectItems(env, obj, s));
    }
  }

  /** The three nested loops of `write_lx`. */
  method Relocate(env: Env) returns (pass: Pass)
    ensures pass == Fold(env, Items(env))
  {
    pass := StartPass(env.state);
    var moduleMap: map<string, byte> := map[];
    for o := 0 to |env.objects|
      invariant pass == Fold(env, Items(env, o)) && MapAgrees(moduleMap, pass.modules)
    {
      pass, moduleMap := RelocateObject(env, o, pass, moduleMap, Items(env, o));
    }
  }

  // ----- patching and padding the buffers -----

  /** `apply_patches_u32` and `apply_patches_i32`: patches that do not fit are skipped. */
  method ApplyPatches(buf: array<byte>, patches: seq<Write>)
    requires forall w :: w in patches ==> |w.data| == 4
    modifies buf
    ensures buf[..] == Apply(old(buf[..]), patches)
  {
    for i := 0 to |patches|
      invariant buf[..] == Apply(old(buf[..]), patches[..i])
    {
      assert patches[..i + 1][..i] == patches[..i];
      var w := patches[i];
      ghost var was := buf[..];
      if w.addr + 4 <= buf.Length {
        for k := 0 to 4
          invariant forall j :: 0 <= j < buf.Length ==>
                      buf[j] == if w.addr <= j < w.addr + k then w.data[j - w.addr] else was[j]
        {
          buf[w.addr + k] := w.data[k];
        }
        assert buf[..] == Store(was, w);
      }
    }
    assert patches[..|patches|] == patches;
  }

  /** `pad_to_page`. */
  function PadToPage(data: seq<byte>): (r: seq<byte>)
    ensures |r| % PAGE_SIZE == 0 && data <= r && |r| < |data| + PAGE_SIZE
    ensures forall i :: |data| <= i < |r| ==> r[i] == 0
  {
    if |data| % PAGE_SIZE == 0 then data else data + Zeros(PAGE_SIZE - |data| % PAGE_SIZE)
  }

  function CodeImage(s: State, p: Pass): seq<byte> {
    PadToPage(Apply(Apply(s.code.data, p.codePatches), p.codePcPatches))
  }

  function DataImage(s: State, p: Pass): seq<byte> {
    PadToPage(Apply(s.data.data, p.dataPatches))
  }

  // ----- encoding -----

  function EncodeFixup(fx: LxFixup): (r: seq<byte>)
    ensures |r| == 9
  {
    match fx.target
    case InternalTarget(objectNum, targetOffset) =>
      [fx.sourceType, 0x10] + U16(fx.sourceOffset) + [objectNum] + U32(targetOffset)
    case OrdinalTarget(moduleIdx, ordinal) =>
      [fx.sourceType, 0x11] + U16(fx.sourceOffset) + [moduleIdx] + U32(ordinal)
  }

  function EncodeFixups(fixups: seq<LxFixup>): seq<seq<byte>> {
    seq(|fixups|, i requires 0 <= i < |fixups| => EncodeFixup(fixups[i]))
  }

  function EncodePage(fixups: seq<LxFixup>): seq<byte> {
    Join(EncodeFixups(fixups))
  }

  function EncodePages(pages: seq<seq<LxFixup>>): seq<seq<byte>> {
    seq(|pages|, i requires 0 <= i < |pages| => EncodePage(pages[i]))
  }

  /** Where each page's records start, and where the last one's end. */
  function FixupPageTable(pages: seq<seq<LxFixup>>): (table: seq<u32>)
    ensures |table| == |pages| + 1
  {
    seq(|pages| + 1, i requires 0 <= i <= |pages| => Start(EncodePages(pages), i) % TWO32)
  }

  function EncodeName(name: string): seq<byte> {
    [|name| % 0x100] + seq(|name|, i requires 0 <= i < |name| => name[i] as int % 0x100)
  }

  function EncodeNames(names: seq<string>): seq<seq<byte>> {
    seq(|names|, i requires 0 <= i < |names| => EncodeName(names[i]))
  }

  /** Everything `write_lx` needs to lay out the file. */
  datatype Image = Image(
    code: seq<byte>, data: seq<byte>, bss: nat, codeFixups: seq<seq<LxFixup>>, dataFixups: seq<seq<LxFixup>>,
    modules: seq<string>, entryOffset: u32)
  {
    predicate Valid() {
      |code| == PAGE_SIZE * |codeFixups| && |data| % PAGE_SIZE == 0 && |data| <= PAGE_SIZE * |dataFixups|
    }

    /** Every page of the page map has its bytes in the file. */
    predicate Gapless() { |data| == PAGE_SIZE * |dataFixups| }

    function Pages(): seq<seq<LxFixup>> { codeFixups + dataFixups + seq(STACK_PAGES, _ => []) }
    function Total(): nat { |codeFixups| + |dataFixups| + STACK_PAGES }
    function Records(): seq<byte> { Join(EncodePages(Pages())) }
    function ModuleBytes(): seq<byte> { Join(EncodeNames(modules)) }

    // offsets from the start of the LX header
    function ResidentOff(): nat { LX_HEADER_SIZE + 72 + 8 * Total() }
    function EntryOff(): nat { ResidentOff() + 11 }
    function FixupPageOff(): nat { EntryOff() + 2 }
    function RecordOff(): nat { FixupPageOff() + 4 * (Total() + 1) }
    function ModulesOff(): nat { RecordOff() + |Records()| }
    function ProcOff(): nat { ModulesOff() + |ModuleBytes()| }

    /** File offset of the first data page: the end of the loader tables, rounded up to 16. */
    function DataOff(): (r: nat)
      ensures LX_HEADER_OFFSET + ProcOff() <= r < LX_HEADER_OFFSET + ProcOff() + 16
    {
      (LX_HEADER_OFFSET + ProcOff() + 15) / 16 * 16
    }

    /** All offsets and sizes fit the 32-bit fields. */
    predicate Fits() { DataOff() + PAGE_SIZE * Total() < TWO32 && |data| + bss < TWO32 }
  }

  function HeaderStart(m: Image): (ws: seq<u32>)
    requires m.Fits()
    ensures |ws| == 12
  {
    [ 0x584C, 0, 2 + 0x1_0000, 0, 0, m.Total(), 1, m.entryOffset, 3, STACK_SIZE, PAGE_SIZE, 0 ]
  }

  function HeaderMiddle(m: Image): (ws: seq<u32>)
    requires m.Fits()
    ensures |ws| == 14
  {
    [ 4 * (m.Total() + 1) + |m.Records()| + |m.ModuleBytes()|, 0, m.FixupPageOff(), 0,
      LX_HEADER_SIZE, 3, LX_HEADER_SIZE + 72, 0, 0, 0, m.ResidentOff(), m.EntryOff(), 0, 0 ]
  }

  function HeaderEnd(m: Image): (ws: seq<u32>)
    requires m.Fits()
    ensures |ws| == 17
  {
    [ m.FixupPageOff(), m.RecordOff(), m.ModulesOff(), |m.modules| % TWO32, m.ProcOff(), 0, m.DataOff(),
      0, 0, 0, 0, 2, 0, 0, 0, 0, 0 ]
  }

  /** The 43 words of the LX header. */
  function HeaderWords(m: Image): (ws: seq<u32>)
    requires m.Fits()
    ensures |ws| == 43
  {
    HeaderStart(m) + HeaderMiddle(m) + HeaderEnd(m)
  }

  /** The rows of the object table: code, data, stack. */
  function ObjectWords(m: Image): (ws: seq<u32>)
    requires m.Fits() && m.Valid()
    ensures |ws| == 18
  {
    [ |m.code|, CODE_OBJECT_BASE, 0x2045, 1, |m.codeFixups|, 0,
      |m.data| + m.bss, DATA_OBJECT_BASE, 0x2043, |m.codeFixups| + 1, |m.dataFixups|, 0,
      STACK_SIZE, STACK_OBJECT_BASE, 0x2043, |m.codeFixups| + |m.dataFixups| + 1, STACK_PAGES, 0 ]
  }

  /**
   * The size entered for page `k` of a buffer of `len` bytes: the length of its slice, cut to
   * 16 bits.  Behind the buffer the difference is negative and wraps.
   */
  function SliceSize(len: nat, k: nat): u16 {
    ((if PAGE_SIZE * (k + 1) < len then PAGE_SIZE * (k + 1) else len) - PAGE_SIZE * k) % TWO16
  }

  function PageSizeAt(m: Image, page: nat): u16 {
    if page < |m.codeFixups| then SliceSize(|m.code|, page)
    else if page < |m.codeFixups| + |m.dataFixups| then SliceSize(|m.data|, page - |m.codeFixups|)
    else PAGE_SIZE
  }

  function PageEntryBytes(page: nat, size: u16): (r: seq<byte>)
    requires PAGE_SIZE * page < TWO32
    ensures |r| == 8
  {
    U32(PAGE_SIZE * page) + U16(size) + U16(0)
  }

  function PageMapBytes(m: Image, n: nat): seq<byte>
    requires PAGE_SIZE * n < TWO32
  {
    if n == 0 then [] else PageMapBytes(m, n - 1) + PageEntryBytes(n - 1, PageSizeAt(m, n - 1))
  }

  const MZ_STUB: seq<byte> := [0x4D, 0x5A] + Zeros(0x3A) + [LX_HEADER_OFFSET, 0, 0, 0]
  const RESIDENT_NAMES: seq<byte> := [7, 0x57, 0x41, 0x52, 0x50, 0x45, 0x58, 0x45, 0, 0, 0]
  const ENTRY_TABLE: seq<byte> := [0, 0]

  /** The parts of the file, in order. */
  function Parts(m: Image): (ps: seq<seq<byte>>)
    requires m.Fits() && m.Valid()
    ensures |ps| == 13
  {
    [ MZ_STUB, Words(HeaderWords(m)), Words(ObjectWords(m)), PageMapBytes(m, m.Total()), RESIDENT_NAMES, ENTRY_TABLE,
      Words(FixupPageTable(m.Pages())), m.Records(), m.ModuleBytes(),
      Zeros(m.DataOff() - LX_HEADER_OFFSET - m.ProcOff()), m.code, m.data, Zeros(PAGE_SIZE * STACK_PAGES) ]
  }

  function ImageOf(env: Env): Image {
    var p := Fold(env, Items(env));
    Image(CodeImage(env.state, p), DataImage(env.state, p), env.state.data.bssSize, p.codeFixups, p.dataFixups, p.modules,
          (env.state.entryVa - CODE_OBJECT_BASE) % TWO32)
  }

  lemma {:induction false} FoldKeepsPages(env: Env, items: seq<Item>)
    ensures |Fold(env, items).codeFixups| == CodePages(env.state)
    ensures |Fold(env, items).dataFixups| == DataPages(env.state)
  {
    if items != [] {
      FoldKeepsPages(env, items[..|items| - 1]);
    }
  }

  /** Code sections are never uninitialised. */
  lemma {:induction false} CodeHasNoBss(objects: seq<ElfObject>, n: nat)
    requires n <= |objects|
    ensures AllCode(objects, n).bssSize == 0
  {
    if n > 0 {
      CodeHasNoBss(objects, n - 1);
      PlacingKeepsBss(AllCode(objects, n - 1), n - 1, objects[n - 1], |objects[n - 1].sections|);
    }
  }

  lemma {:induction false} PlacingKeepsBss(m: Merged, obj: nat, o: ElfObject, n: nat)
    requires n <= |o.sections|
    ensures CodePlaced(m, obj, o, n).bssSize == m.bssSize
  {
    if n > 0 {
      PlacingKeepsBss(m, obj, o, n - 1);
    }
  }

  /** Uninitialised data fits behind the initialised data in its last page. */
  predicate BssInPadding(s: State) {
    |s.data.data| + s.data.bssSize <= PAGE_SIZE * PageCount(|s.data.data|, 0)
  }

  lemma ImageIsPaged(env: Env)
    requires env.Valid()
    ensures env.state.code.bssSize == 0
    ensures ImageOf(env).Valid() && (ImageOf(env).Gapless() <==> BssInPadding(env.state))
  {
    hide ImageOf, AllCode, AllData, AllSymbols;
    CodeHasNoBss(env.objects, |env.objects|);
    ImageShape(env);
    PaddedPages(env.state.code.data, ImageOf(env).code);
    PaddedPages(env.state.data.data, ImageOf(env).data);
  }

  /** The buffers are padded, and have as many fixup lists as the page map has pages. */
  lemma ImageShape(env: Env)
    ensures var m, s := ImageOf(env), env.state;
            && |m.code| % PAGE_SIZE == 0 && |s.code.data| <= |m.code| < |s.code.data| + PAGE_SIZE
            && |m.data| % PAGE_SIZE == 0 && |s.data.data| <= |m.data| < |s.data.data| + PAGE_SIZE
            && |m.codeFixups| == CodePages(s) && |m.dataFixups| == DataPages(s)
  {
    hide Fold, Items, CodePages, DataPages;
    FoldKeepsPages(env, Items(env));
  }

  lemma PaddedPages(data: seq<byte>, image: seq<byte>)
    requires |image| % PAGE_SIZE == 0 && |data| <= |image| < |data| + PAGE_SIZE
    ensures |image| == PAGE_SIZE * PageCount(|data|, 0)
  {
  }

  // ----- the writer -----

  method EncodeOnePage(fixups: seq<LxFixup>) returns (out: seq<byte>)
    ensures out == EncodePage(fixups)
  {
    out := [];
    ghost var encoded := EncodeFixups(fixups);
    for i := 0 to |fixups|
      invariant out == Join(encoded[..i])
    {
      out := out + EncodeFixup(fixups[i]);
      JoinTake(encoded, i);
    }
    assert encoded[..|fixups|] == encoded;
  }

  /** The page table and the records of the first `i` pages. */
  function TableBefore(pages: seq<seq<LxFixup>>, i: nat): seq<u32>
    requires i <= |pages| + 1
  {
    FixupPageTable(pages)[..i]
  }

  function RecordsBefore(pages: seq<seq<LxFixup>>, i: nat): seq<byte>
    requires i <= |pages|
  {
    Join(EncodePages(pages)[..i])
  }

  lemma BuildStep(pages: seq<seq<LxFixup>>, i: nat)
    requires i <= |pages|
    ensures TableBefore(pages, i + 1) == TableBefore(pages, i) + [|RecordsBefore(pages, i)| % TWO32]
    ensures i < |pages| ==> RecordsBefore(pages, i + 1) == RecordsBefore(pages, i) + EncodePage(pages[i])
  {
    hide Join, EncodePage;
    if i < |pages| {
      JoinTake(EncodePages(pages), i);
    }
  }

  lemma BuildEnds(pages: seq<seq<LxFixup>>)
    ensures TableBefore(pages, 0) == [] && RecordsBefore(pages, 0) == []
    ensures TableBefore(pages, |pages| + 1) == FixupPageTable(pages) && RecordsBefore(pages, |pages|) == Join(EncodePages(pages))
  {
    assert EncodePages(pages)[..|pages|] == EncodePages(pages);
  }

  method BuildFixups(pages: seq<seq<LxFixup>>) returns (table: seq<u32>, records: seq<byte>)
    ensures table == FixupPageTable(pages) && records == Join(EncodePages(pages))
  {
    hide TableBefore, RecordsBefore, Join, EncodePage, EncodePages, FixupPageTable;
    table, records := [], [];
    BuildEnds(pages);
    for i := 0 to |pages|
      invariant table == TableBefore(pages, i) && records == RecordsBefore(pages, i)
    {
      BuildStep(pages, i);
      table := table + [|records| % TWO32];
      var page := EncodeOnePage(pages[i]);
      records := records + page;
    }
    BuildStep(pages, |pages|);
    table := table + [|records| % TWO32];
  }

  method BuildModuleNames(modules: seq<string>) returns (out: seq<byte>)
    ensures out == Join(EncodeNames(modules))
  {
    out := [];
    var encoded := EncodeNames(modules);
    for i := 0 to |modules|
      invariant out == Join(encoded[..i])
    {
      out := out + EncodeName(modules[i]);
      JoinTake(encoded, i);
    }
    assert encoded[..|modules|] == encoded;
  }

  lemma FullSlice(len: nat, k: nat)
    requires PAGE_SIZE * (k + 1) <= len
    ensures SliceSize(len, k) == PAGE_SIZE
  {
  }

  /** The three loops of the page map; `underflow` tells of a subtraction below zero. */
  method BuildPageMap(m: Image) returns (out: seq<byte>, ghost underflow: bool)
    requires m.Valid() && m.Fits()
    ensures out == PageMapBytes(m, m.Total())
    ensures underflow <==> |m.data| + PAGE_SIZE < PAGE_SIZE * |m.dataFixups|
  {
    hide SliceSize, PageEntryBytes;
    out, underflow := [], false;
    var page := 0;
    for k := 0 to |m.codeFixups|
      invariant page == k && out == PageMapBytes(m, page)
    {
      out := out + PageEntryBytes(page, SliceSize(|m.code|, k));
      page := page + 1;
    }
    for k := 0 to |m.dataFixups|
      invariant page == |m.codeFixups| + k && out == PageMapBytes(m, page)
      invariant underflow <==> k > 0 && |m.data| < PAGE_SIZE * (k - 1)
    {
      underflow := underflow || |m.data| < PAGE_SIZE * k;
      out := out + PageEntryBytes(page, SliceSize(|m.data|, k));
      page := page + 1;
    }
    for k := 0 to STACK_PAGES
      invariant page == |m.codeFixups| + |m.dataFixups| + k && out == PageMapBytes(m, page)
    {
      out := out + PageEntryBytes(page, PAGE_SIZE);
      page := page + 1;
    }
  }

  method PatchedCopy(data: seq<byte>, patches: seq<Write>, more: seq<Write>) returns (r: seq<byte>)
    requires forall w :: w in patches + more ==> |w.data| == 4
    ensures r == PadToPage(Apply(Apply(data, patches), more))
  {
    var buf := new byte[|data|](i requires 0 <= i < |data| => data[i]);
    assert buf[..] == data;
    ApplyPatches(buf, patches);
    ApplyPatches(buf, more);
    return PadToPage(buf[..]);
  }

  lemma {:induction false} FoldPatchesAreWords(env: Env, items: seq<Item>)
    ensures var p := Fold(env, items);
            forall w :: w in p.codePatches + p.codePcPatches + p.dataPatches ==> |w.data| == 4
  {
    if items != [] {
      FoldPatchesAreWords(env, items[..|items| - 1]);
    }
  }

  /**
   * `write_lx`.  `underflow` tells that the page map met a page that lies wholly behind the
   * data, where a build with overflow checks stops instead.
   */
  method WriteLx(env: Env) returns (out: seq<byte>, ghost underflow: bool)
    requires env.Valid() && ImageOf(env).Fits()
    ensures ImageOf(env).Valid() && out == Join(Parts(ImageOf(env)))
    ensures underflow <==> |ImageOf(env).data| + PAGE_SIZE < PAGE_SIZE * DataPages(env.state)
  {
    hide Join, Words, HeaderWords, ObjectWords, FixupPageTable, EncodePages, EncodeNames, Zeros, Items, Fold, PageMapBytes;
    var pass := Relocate(env);
    ImageIsPaged(env);
    FoldKeepsPages(env, Items(env));
    FoldPatchesAreWords(env, Items(env));
    var code := PatchedCopy(env.state.code.data, pass.codePatches, pass.codePcPatches);
    var data := PatchedCopy(env.state.data.data, pass.dataPatches, []);
    var m := Image(code, data, env.state.data.bssSize, pass.codeFixups, pass.dataFixups, pass.modules,
                   (env.state.entryVa - CODE_OBJECT_BASE) % TWO32);
    assert m == ImageOf(env);
    var table, records := BuildFixups(m.Pages());
    var names := BuildModuleNames(m.modules);
    var pageMap;
    pageMap, underflow := BuildPageMap(m);
    var parts := [
      MZ_STUB, Words(HeaderWords(m)), Words(ObjectWords(m)), pageMap, RESIDENT_NAMES, ENTRY_TABLE,
      Words(table), records, names, Zeros(m.DataOff() - LX_HEADER_OFFSET - m.ProcOff()),
      m.code, m.data, Zeros(PAGE_SIZE * STACK_PAGES)];
    out := Assemble(parts);
  }

  method Assemble(parts: seq<seq<byte>>) returns (out: seq<byte>)
    ensures out == Join(parts)
  {
    out := [];
    for i := 0 to |parts|
      invariant out == Join(parts[..i])
    {
      out := out + parts[i];
      JoinTake(parts, i);
    }
    assert parts[..|parts|] == parts;
  }
}
