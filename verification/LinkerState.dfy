/**
 * Section merging and symbol placement (src/bin/lx_link.rs, `mod linker_state`).
 */
module LinkerState {
  import opened Bytes
  import opened Wrappers

  const CODE_OBJECT_BASE := 0x1_0000
  const DATA_OBJECT_BASE := 0x6_0000

  datatype SectionKind = Text | Data | ReadOnlyData | ReadOnlyString | UninitializedData

  datatype RelocKind = Absolute | Relative | OtherKind

  datatype RelocTarget = Symbol(name: string) | Section(name: string)

  datatype Reloc = Reloc(offset: u32, kind: RelocKind, addend: int, target: RelocTarget)

  datatype ElfSection = ElfSection(name: string, kind: SectionKind, data: seq<byte>, align: u32, relocs: seq<Reloc>)

  datatype ElfSymbol = ElfSymbol(name: string, sectionIdx: Option<nat>, offset: u32)

  datatype ElfObject = ElfObject(sections: seq<ElfSection>, symbols: seq<ElfSymbol>) {
    /** Section indices are those of this object, as the ELF reader builds them. */
    predicate Valid() {
      && (forall i :: 0 <= i < |symbols| && symbols[i].sectionIdx.Some? ==> symbols[i].sectionIdx.value < |sections|)
      && (forall i :: 0 <= i < |sections| ==> PowerOfTwo(sections[i].align))
    }
  }

  datatype InputEntry = InputEntry(objIdx: nat, secIdx: nat, mergedOffset: nat)

  /** The contents of a `MergedSection`. */
  datatype Merged = Merged(data: seq<byte>, bssSize: nat, va: u32, inputMap: seq<InputEntry>)

  /** What `LinkerState::build` returns. */
  datatype State = State(code: Merged, data: Merged, symbols: map<string, u32>, entryVa: u32)

  predicate PowerOfTwo(n: int)
    decreases n
  {
    n == 1 || (n > 1 && n % 2 == 0 && PowerOfTwo(n / 2))
  }

  /** `align_up`: for a power of two, masking the low bits after adding `align - 1`. */
  function AlignUp(v: nat, align: nat): (r: nat)
    ensures v <= r
  {
    if align <= 1 || v % align == 0 then v else v + (align - v % align)
  }

  lemma AlignUpIsMultiple(v: nat, align: nat)
    requires align >= 1
    ensures AlignUp(v, align) % align == 0 && AlignUp(v, align) < v + align
  {
    if align > 1 && v % align != 0 {
      var q := v / align;
      assert AlignUp(v, align) == align * q + align == align * (q + 1);
      MultipleMod(q + 1, align);
    }
  }

  lemma MultipleMod(q: nat, a: nat)
    requires a >= 1
    ensures (a * q) % a == 0
  {
    var x := a * q;
    QuotientUnique(a, x / a, x % a, q, 0);
  }

  lemma QuotientUnique(a: nat, q: int, r: nat, q': int, r': nat)
    requires r < a && r' < a && a * q + r == a * q' + r'
    ensures q == q' && r == r'
  {
    assert a * (q + 1) == a * q + a;
    assert a * (q' + 1) == a * q' + a;
    if q < q' {
      Scale(a, q + 1, q');
    } else if q' < q {
      Scale(a, q' + 1, q);
    }
  }

  lemma Scale(a: nat, x: int, y: int)
    requires x <= y
    ensures a * x <= a * y
  {
  }

  function Zeros(n: nat): (z: seq<byte>)
    ensures |z| == n && forall i :: 0 <= i < n ==> z[i] == 0
  {
    seq(n, _ => 0)
  }

  /** `append_section`: pad with zeros to the alignment, then copy the bytes. */
  function Appended(m: Merged, obj: nat, sec: nat, s: ElfSection): Merged {
    var offset := AlignUp(|m.data|, s.align);
    m.(data := m.data + Zeros(offset - |m.data|) + s.data,
       inputMap := m.inputMap + [InputEntry(obj, sec, offset)])
  }

  /** The BSS branch of `build`: only the size grows. */
  function BssGrown(m: Merged, s: ElfSection): Merged {
    var cur := |m.data| + m.bssSize;
    m.(bssSize := m.bssSize + (AlignUp(cur, s.align) - cur) + |s.data|)
  }

  /** An uninitialised section gets its size, from the next multiple of its alignment on. */
  lemma BssHasItsPlace(m: Merged, s: ElfSection)
    ensures var start := |m.data| + BssGrown(m, s).bssSize - |s.data|;
            && |m.data| + m.bssSize <= start
            && (if s.align <= 1 then start == |m.data| + m.bssSize
                else start % s.align == 0 && start < |m.data| + m.bssSize + s.align)
            && BssGrown(m, s).data == m.data && BssGrown(m, s).inputMap == m.inputMap
  {
    if s.align >= 1 {
      AlignUpIsMultiple(|m.data| + m.bssSize, s.align);
    }
  }

  class MergedSection {
    var data: seq<byte>
    var bssSize: nat
    const va: u32
    var inputMap: seq<InputEntry>

    constructor (va: u32)
      ensures Value() == Merged([], 0, va, [])
    {
      data, bssSize, inputMap := [], 0, [];
      this.va := va;
    }

    function Value(): Merged
      reads this
    {
      Merged(data, bssSize, va, inputMap)
    }

    method Append(obj: nat, sec: nat, s: ElfSection)
      modifies this
      ensures Value() == Appended(old(Value()), obj, sec, s)
    {
      var aligned := AlignUp(|data|, s.align);
      data := data + Zeros(aligned - |data|);
      var offset := |data|;
      data := data + s.data;
      inputMap := inputMap + [InputEntry(obj, sec, offset)];
    }

    method GrowBss(s: ElfSection)
      modifies this
      ensures Value() == BssGrown(old(Value()), s)
    {
      var cur := |data| + bssSize;
      bssSize := bssSize + (AlignUp(cur, s.align) - cur) + |s.data|;
    }
  }

  // ----- the two passes over the input sections -----

  function CodePlaced(m: Merged, obj: nat, o: ElfObject, n: nat): Merged
    requires n <= |o.sections|
  {
    if n == 0 then m
    else
      var before, s := CodePlaced(m, obj, o, n - 1), o.sections[n - 1];
      if s.kind == Text then Appended(before, obj, n - 1, s) else before
  }

  function DataPlaced(m: Merged, obj: nat, o: ElfObject, n: nat): Merged
    requires n <= |o.sections|
  {
    if n == 0 then m
    else
      var before, s := DataPlaced(m, obj, o, n - 1), o.sections[n - 1];
      if s.kind == Text then before
      else if s.kind == UninitializedData then BssGrown(before, s)
      else Appended(before, obj, n - 1, s)
  }

  function AllCode(objects: seq<ElfObject>, n: nat): Merged
    requires n <= |objects|
  {
    if n == 0 then Merged([], 0, CODE_OBJECT_BASE, [])
    else CodePlaced(AllCode(objects, n - 1), n - 1, objects[n - 1], |objects[n - 1].sections|)
  }

  function AllData(objects: seq<ElfObject>, n: nat): Merged
    requires n <= |objects|
  {
    if n == 0 then Merged([], 0, DATA_OBJECT_BASE, [])
    else DataPlaced(AllData(objects, n - 1), n - 1, objects[n - 1], |objects[n - 1].sections|)
  }

  /** Bytes of the first `n` sections of an object that are uninitialised, and with their greatest padding. */
  function BssBytes(o: ElfObject, n: nat, padded: bool): nat
    requires n <= |o.sections|
  {
    if n == 0 then 0
    else
      var s := o.sections[n - 1];
      BssBytes(o, n - 1, padded) + if s.kind == UninitializedData then |s.data| + (if padded then s.align else 0) else 0
  }

  function AllBssBytes(objects: seq<ElfObject>, n: nat, padded: bool): nat
    requires n <= |objects|
  {
    if n == 0 then 0 else AllBssBytes(objects, n - 1, padded) + BssBytes(objects[n - 1], |objects[n - 1].sections|, padded)
  }

  lemma {:induction false} BssOfObject(m: Merged, obj: nat, o: ElfObject, n: nat)
    requires n <= |o.sections|
    ensures m.bssSize + BssBytes(o, n, false) <= DataPlaced(m, obj, o, n).bssSize <= m.bssSize + BssBytes(o, n, true)
  {
    hide Appended, BssGrown;
    if n > 0 {
      BssOfObject(m, obj, o, n - 1);
      var before, s := DataPlaced(m, obj, o, n - 1), o.sections[n - 1];
      if s.kind == UninitializedData {
        BssHasItsPlace(before, s);
      } else if s.kind != Text {
        AppendKeepsBss(before, obj, n - 1, s);
      }
    }
  }

  lemma AppendKeepsBss(m: Merged, obj: nat, sec: nat, s: ElfSection)
    ensures Appended(m, obj, sec, s).bssSize == m.bssSize
  {
  }

  /** The size of uninitialised data covers all such sections of the input, with no more than their alignments added. */
  lemma {:induction false} BssIsCounted(objects: seq<ElfObject>, n: nat)
    requires n <= |objects|
    ensures AllBssBytes(objects, n, false) <= AllData(objects, n).bssSize <= AllBssBytes(objects, n, true)
  {
    hide DataPlaced, BssBytes;
    if n > 0 {
      BssIsCounted(objects, n - 1);
      BssOfObject(AllData(objects, n - 1), n - 1, objects[n - 1], |objects[n - 1].sections|);
    }
  }

  // ----- look-ups and symbols -----

  /** `find_merged_va`: the address of the first entry for this input section. */
  function FindMergedVa(m: Merged, obj: nat, sec: nat, n: nat := |m.inputMap|): Option<nat>
    requires n <= |m.inputMap|
  {
    if n == 0 then None
    else
      var before := FindMergedVa(m, obj, sec, n - 1);
      var e := m.inputMap[n - 1];
      if before.Some? then before
      else if e.objIdx == obj && e.secIdx == sec then Some(m.va + e.mergedOffset)
      else None
  }

  method FindMerged(m: Merged, obj: nat, sec: nat) returns (r: Option<nat>)
    ensures r == FindMergedVa(m, obj, sec)
  {
    for i := 0 to |m.inputMap|
      invariant FindMergedVa(m, obj, sec, i) == None
    {
      var e := m.inputMap[i];
      if e.objIdx == obj && e.secIdx == sec {
        FoundFirst(m, obj, sec, i + 1, |m.inputMap|);
        return Some(m.va + e.mergedOffset);
      }
    }
    return None;
  }

  lemma FoundFirst(m: Merged, obj: nat, sec: nat, i: nat, n: nat)
    requires i <= n <= |m.inputMap| && FindMergedVa(m, obj, sec, i).Some?
    ensures FindMergedVa(m, obj, sec, n) == FindMergedVa(m, obj, sec, i)
  {
  }

  /** Where section `sec` of object `obj` was placed: text in the code object, the rest in the data object. */
  function SectionVa(objects: seq<ElfObject>, code: Merged, data: Merged, obj: nat, sec: nat): Option<nat>
    requires obj < |objects| && sec < |objects[obj].sections|
  {
    if objects[obj].sections[sec].kind == Text then FindMergedVa(code, obj, sec) else FindMergedVa(data, obj, sec)
  }

  function SymbolsOf(objects: seq<ElfObject>, code: Merged, data: Merged, table: map<string, u32>, obj: nat, n: nat): map<string, u32>
    requires obj < |objects| && objects[obj].Valid() && n <= |objects[obj].symbols|
  {
    if n == 0 then table
    else
      var before, sym := SymbolsOf(objects, code, data, table, obj, n - 1), objects[obj].symbols[n - 1];
      if sym.sectionIdx.None? then before
      else
        var va := SectionVa(objects, code, data, obj, sym.sectionIdx.value);
        if va.None? then before else before[sym.name := (va.value + sym.offset) % TWO32]
  }

  predicate AllValid(objects: seq<ElfObject>) {
    forall i :: 0 <= i < |objects| ==> objects[i].Valid()
  }

  function AllSymbols(objects: seq<ElfObject>, code: Merged, data: Merged, n: nat): map<string, u32>
    requires AllValid(objects) && n <= |objects|
  {
    if n == 0 then map[]
    else SymbolsOf(objects, code, data, AllSymbols(objects, code, data, n - 1), n - 1, |objects[n - 1].symbols|)
  }

  function EntryVa(symbols: map<string, u32>): u32 {
    if "_start" in symbols then symbols["_start"]
    else if "main" in symbols then symbols["main"]
    else CODE_OBJECT_BASE
  }

  function Built(objects: seq<ElfObject>): State
    requires AllValid(objects)
  {
    var code, data := AllCode(objects, |objects|), AllData(objects, |objects|);
    var symbols := AllSymbols(objects, code, data, |objects|);
    State(code, data, symbols, EntryVa(symbols))
  }

  method Build(objects: seq<ElfObject>) returns (s: State)
    requires AllValid(objects)
    ensures s == Built(objects)
  {
    var code := new MergedSection(CODE_OBJECT_BASE);
    var data := new MergedSection(DATA_OBJECT_BASE);
    for o := 0 to |objects|
      invariant code.Value() == AllCode(objects, o)
      invariant data.Value() == AllData(objects, 0)
    {
      var obj := objects[o];
      for i := 0 to |obj.sections|
        invariant code.Value() == CodePlaced(AllCode(objects, o), o, obj, i)
        invariant data.Value() == AllData(objects, 0)
      {
        if obj.sections[i].kind == Text {
          code.Append(o, i, obj.sections[i]);
        }
      }
    }
    for o := 0 to |objects|
      invariant code.Value() == AllCode(objects, |objects|)
      invariant data.Value() == AllData(objects, o)
    {
      var obj := objects[o];
      for i := 0 to |obj.sections|
        invariant code.Value() == AllCode(objects, |objects|)
        invariant data.Value() == DataPlaced(AllData(objects, o), o, obj, i)
      {
        match obj.sections[i].kind
        case Text =>
        case UninitializedData => data.GrowBss(obj.sections[i]);
        case _ => data.Append(o, i, obj.sections[i]);
      }
    }
    var c, d := code.Value(), data.Value();
    var symbols := CollectSymbols(objects, c, d);
    return State(c, d, symbols, EntryVa(symbols));
  }

  method CollectSymbols(objects: seq<ElfObject>, code: Merged, data: Merged) returns (table: map<string, u32>)
    requires AllValid(objects)
    ensures table == AllSymbols(objects, code, data, |objects|)
  {
    table := map[];
    for o := 0 to |objects|
      invariant table == AllSymbols(objects, code, data, o)
    {
      var obj := objects[o];
      ghost var before := table;
      for i := 0 to |obj.symbols|
        invariant table == SymbolsOf(objects, code, data, before, o, i)
      {
        var sym := obj.symbols[i];
        if sym.sectionIdx.Some? {
          var sec := sym.sectionIdx.value;
          var va;
          if obj.sections[sec].kind == Text {
            va := FindMerged(code, o, sec);
          } else {
            va := FindMerged(data, o, sec);
          }
          if va.Some? {
            table := table[sym.name := (va.value + sym.offset) % TWO32];
          }
        }
      }
    }
  }
}
