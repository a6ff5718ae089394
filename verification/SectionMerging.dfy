/**
 * What merging promises (src/bin/lx_link.rs:354-450): every input section lies aligned
 * in its own range, in input order, and every symbol points into such a range.
 */
module SectionMerging {
  import opened Bytes
  import opened Wrappers
  import opened LinkerState

  predicate Before(e: InputEntry, obj: nat, sec: nat) {
    e.objIdx < obj || (e.objIdx == obj && e.secIdx < sec)
  }

  predicate Names(e: InputEntry, objects: seq<ElfObject>) {
    e.objIdx < |objects| && e.secIdx < |objects[e.objIdx].sections|
  }

  function Input(e: InputEntry, objects: seq<ElfObject>): ElfSection
    requires Names(e, objects)
  {
    objects[e.objIdx].sections[e.secIdx]
  }

  /** One past the last byte of the range of entry `e`. */
  function End(e: InputEntry, objects: seq<ElfObject>): nat
    requires Names(e, objects)
  {
    e.mergedOffset + |Input(e, objects).data|
  }

  /** Entry `e` is an aligned copy of its input section. */
  predicate Copied(m: Merged, objects: seq<ElfObject>, e: InputEntry) {
    && Names(e, objects)
    && Input(e, objects).align >= 1
    && e.mergedOffset % Input(e, objects).align == 0
    && End(e, objects) <= |m.data|
    && m.data[e.mergedOffset..End(e, objects)] == Input(e, objects).data
  }

  predicate InSome(m: Merged, objects: seq<ElfObject>, k: int)
    requires forall i :: 0 <= i < |m.inputMap| ==> Names(m.inputMap[i], objects)
  {
    exists i :: 0 <= i < |m.inputMap| && m.inputMap[i].mergedOffset <= k < End(m.inputMap[i], objects)
  }

  /** Aligned copies, disjoint and in input order, with zeros in between. */
  predicate Laid(m: Merged, objects: seq<ElfObject>) {
    && (forall i :: 0 <= i < |m.inputMap| ==> Copied(m, objects, m.inputMap[i]))
    && (forall i, j :: 0 <= i < j < |m.inputMap| ==>
          && End(m.inputMap[i], objects) <= m.inputMap[j].mergedOffset
          && Before(m.inputMap[i], m.inputMap[j].objIdx, m.inputMap[j].secIdx))
    && (forall k :: 0 <= k < |m.data| && !InSome(m, objects, k) ==> m.data[k] == 0)
  }

  predicate AllBefore(m: Merged, obj: nat, sec: nat) {
    forall i :: 0 <= i < |m.inputMap| ==> Before(m.inputMap[i], obj, sec)
  }

  lemma AppendKeepsLaid(m: Merged, objects: seq<ElfObject>, obj: nat, sec: nat)
    requires Laid(m, objects) && AllBefore(m, obj, sec)
    requires obj < |objects| && sec < |objects[obj].sections| && objects[obj].sections[sec].align >= 1
    ensures Laid(Appended(m, obj, sec, objects[obj].sections[sec]), objects)
  {
    var s := objects[obj].sections[sec];
    var r := Appended(m, obj, sec, s);
    var n := |m.inputMap|;
    AlignUpIsMultiple(|m.data|, s.align);
    forall i | 0 <= i <= n
      ensures Copied(r, objects, r.inputMap[i])
      ensures i < n ==> r.inputMap[i] == m.inputMap[i]
    {
      if i < n {
        var e := m.inputMap[i];
        assert Copied(m, objects, e);
        assert r.data[e.mergedOffset..End(e, objects)] == m.data[e.mergedOffset..End(e, objects)];
      }
    }
    forall k | 0 <= k < |r.data| && !InSome(r, objects, k)
      ensures r.data[k] == 0
    {
      assert k < r.inputMap[n].mergedOffset;
      forall i | 0 <= i < n
        ensures !(m.inputMap[i].mergedOffset <= k < End(m.inputMap[i], objects))
      {
        assert r.inputMap[i] == m.inputMap[i];
      }
    }
  }

  lemma BssKeepsLaid(m: Merged, objects: seq<ElfObject>, s: ElfSection)
    requires Laid(m, objects)
    ensures Laid(BssGrown(m, s), objects)
  {
    var r := BssGrown(m, s);
    assert r.inputMap == m.inputMap && r.data == m.data;
    assert forall i :: 0 <= i < |r.inputMap| ==> Copied(m, objects, r.inputMap[i]);
    forall k | 0 <= k < |r.data| && !InSome(r, objects, k)
      ensures r.data[k] == 0
    {
      assert !InSome(m, objects, k);
    }
  }

  lemma AppendKeepsOrder(m: Merged, obj: nat, sec: nat, s: ElfSection)
    requires AllBefore(m, obj, sec)
    ensures AllBefore(Appended(m, obj, sec, s), obj, sec + 1)
  {
  }

  lemma StillBefore(m: Merged, obj: nat, sec: nat, s: ElfSection)
    requires AllBefore(m, obj, sec)
    ensures AllBefore(m, obj, sec + 1) && AllBefore(BssGrown(m, s), obj, sec + 1)
  {
  }

  lemma CodeStep(m: Merged, objects: seq<ElfObject>, obj: nat, sec: nat)
    requires Laid(m, objects) && AllBefore(m, obj, sec)
    requires obj < |objects| && sec < |objects[obj].sections| && objects[obj].sections[sec].align >= 1
    ensures var r := Appended(m, obj, sec, objects[obj].sections[sec]);
            Laid(r, objects) && AllBefore(r, obj, sec + 1)
  {
    AppendKeepsLaid(m, objects, obj, sec);
    AppendKeepsOrder(m, obj, sec, objects[obj].sections[sec]);
  }

  lemma {:induction false} CodePlacedLaid(m: Merged, objects: seq<ElfObject>, obj: nat, n: nat)
    requires AllValid(objects) && obj < |objects| && n <= |objects[obj].sections|
    requires Laid(m, objects) && AllBefore(m, obj, 0)
    ensures Laid(CodePlaced(m, obj, objects[obj], n), objects)
    ensures AllBefore(CodePlaced(m, obj, objects[obj], n), obj, n)
  {
    hide Laid, AllBefore, Appended;
    if n > 0 {
      CodePlacedLaid(m, objects, obj, n - 1);
      StillBefore(CodePlaced(m, obj, objects[obj], n - 1), obj, n - 1, objects[obj].sections[n - 1]);
      if objects[obj].sections[n - 1].kind == Text {
        CodeStep(CodePlaced(m, obj, objects[obj], n - 1), objects, obj, n - 1);
      }
    }
  }

  lemma {:induction false} DataPlacedLaid(m: Merged, objects: seq<ElfObject>, obj: nat, n: nat)
    requires AllValid(objects) && obj < |objects| && n <= |objects[obj].sections|
    requires Laid(m, objects) && AllBefore(m, obj, 0)
    ensures Laid(DataPlaced(m, obj, objects[obj], n), objects)
    ensures AllBefore(DataPlaced(m, obj, objects[obj], n), obj, n)
  {
    hide Laid, AllBefore, Appended, BssGrown;
    if n > 0 {
      DataPlacedLaid(m, objects, obj, n - 1);
      var before := DataPlaced(m, obj, objects[obj], n - 1);
      var s := objects[obj].sections[n - 1];
      StillBefore(before, obj, n - 1, s);
      if s.kind == UninitializedData {
        BssKeepsLaid(before, objects, s);
      } else if s.kind != Text {
        CodeStep(before, objects, obj, n - 1);
      }
    }
  }

  lemma {:induction false} AllCodeLaid(objects: seq<ElfObject>, n: nat)
    requires AllValid(objects) && n <= |objects|
    ensures Laid(AllCode(objects, n), objects) && AllBefore(AllCode(objects, n), n, 0)
  {
    if n > 0 {
      AllCodeLaid(objects, n - 1);
      CodePlacedLaid(AllCode(objects, n - 1), objects, n - 1, |objects[n - 1].sections|);
    }
  }

  lemma {:induction false} AllDataLaid(objects: seq<ElfObject>, n: nat)
    requires AllValid(objects) && n <= |objects|
    ensures Laid(AllData(objects, n), objects) && AllBefore(AllData(objects, n), n, 0)
  {
    if n > 0 {
      AllDataLaid(objects, n - 1);
      DataPlacedLaid(AllData(objects, n - 1), objects, n - 1, |objects[n - 1].sections|);
    }
  }

  /** Both merged sections of a build are laid out as promised. */
  lemma BuildLaysOutSections(objects: seq<ElfObject>)
    requires AllValid(objects)
    ensures Laid(Built(objects).code, objects) && Laid(Built(objects).data, objects)
  {
    AllCodeLaid(objects, |objects|);
    AllDataLaid(objects, |objects|);
  }

  // ----- every section that should be placed is placed -----

  predicate Placed(m: Merged, obj: nat, sec: nat) {
    exists i :: 0 <= i < |m.inputMap| && m.inputMap[i].objIdx == obj && m.inputMap[i].secIdx == sec
  }

  lemma {:induction false} CodePlacedAll(m: Merged, obj: nat, o: ElfObject, n: nat)
    requires n <= |o.sections|
    ensures m.inputMap <= CodePlaced(m, obj, o, n).inputMap
    ensures forall s :: 0 <= s < n && o.sections[s].kind == Text ==> Placed(CodePlaced(m, obj, o, n), obj, s)
  {
    if n > 0 {
      CodePlacedAll(m, obj, o, n - 1);
      var before, after := CodePlaced(m, obj, o, n - 1), CodePlaced(m, obj, o, n);
      if o.sections[n - 1].kind == Text {
        assert after.inputMap[|before.inputMap|].objIdx == obj;
      }
      forall s | 0 <= s < n && o.sections[s].kind == Text
        ensures Placed(after, obj, s)
      {
        if s < n - 1 {
          PlacedStays(before, after, obj, s);
        }
      }
    }
  }

  lemma {:induction false} DataPlacedAll(m: Merged, obj: nat, o: ElfObject, n: nat)
    requires n <= |o.sections|
    ensures m.inputMap <= DataPlaced(m, obj, o, n).inputMap
    ensures forall s :: 0 <= s < n && o.sections[s].kind !in {Text, UninitializedData} ==> Placed(DataPlaced(m, obj, o, n), obj, s)
  {
    if n > 0 {
      DataPlacedAll(m, obj, o, n - 1);
      var before, after := DataPlaced(m, obj, o, n - 1), DataPlaced(m, obj, o, n);
      if o.sections[n - 1].kind !in {Text, UninitializedData} {
        assert after.inputMap[|before.inputMap|].objIdx == obj;
      }
      forall s | 0 <= s < n && o.sections[s].kind !in {Text, UninitializedData}
        ensures Placed(after, obj, s)
      {
        if s < n - 1 {
          PlacedStays(before, after, obj, s);
        }
      }
    }
  }

  lemma PlacedStays(before: Merged, after: Merged, obj: nat, sec: nat)
    requires Placed(before, obj, sec) && before.inputMap <= after.inputMap
    ensures Placed(after, obj, sec)
  {
    var i :| 0 <= i < |before.inputMap| && before.inputMap[i].objIdx == obj && before.inputMap[i].secIdx == sec;
    assert after.inputMap[i] == before.inputMap[i];
  }

  lemma {:induction false} CodePlacesObject(objects: seq<ElfObject>, obj: nat, sec: nat, n: nat)
    requires obj < n <= |objects| && sec < |objects[obj].sections| && objects[obj].sections[sec].kind == Text
    ensures Placed(AllCode(objects, n), obj, sec)
  {
    CodePlacedAll(AllCode(objects, n - 1), n - 1, objects[n - 1], |objects[n - 1].sections|);
    if obj < n - 1 {
      CodePlacesObject(objects, obj, sec, n - 1);
      PlacedStays(AllCode(objects, n - 1), AllCode(objects, n), obj, sec);
    }
  }

  lemma {:induction false} DataPlacesObject(objects: seq<ElfObject>, obj: nat, sec: nat, n: nat)
    requires obj < n <= |objects| && sec < |objects[obj].sections|
    requires objects[obj].sections[sec].kind !in {Text, UninitializedData}
    ensures Placed(AllData(objects, n), obj, sec)
  {
    DataPlacedAll(AllData(objects, n - 1), n - 1, objects[n - 1], |objects[n - 1].sections|);
    if obj < n - 1 {
      DataPlacesObject(objects, obj, sec, n - 1);
      PlacedStays(AllData(objects, n - 1), AllData(objects, n), obj, sec);
    }
  }

  /** Looking a section up finds an entry for it, or there is none. */
  lemma {:induction false} FindMergedVaFinds(m: Merged, obj: nat, sec: nat, n: nat)
    requires n <= |m.inputMap|
    ensures match FindMergedVa(m, obj, sec, n)
            case Some(va) => exists i :: 0 <= i < n && m.inputMap[i].objIdx == obj && m.inputMap[i].secIdx == sec
                                         && va == m.va + m.inputMap[i].mergedOffset
            case None => forall i :: 0 <= i < n ==> m.inputMap[i].objIdx != obj || m.inputMap[i].secIdx != sec
  {
    if n > 0 {
      FindMergedVaFinds(m, obj, sec, n - 1);
    }
  }

  // ----- symbols -----

  /** The object a section of this kind is merged into. */
  function Home(s: State, kind: SectionKind): Merged {
    if kind == Text then s.code else s.data
  }

  /** The merged object that symbol `n` of object `obj` is defined in. */
  function HomeOf(objects: seq<ElfObject>, s: State, obj: nat, n: nat): Merged
    requires AllValid(objects) && obj < |objects| && n < |objects[obj].symbols| && objects[obj].symbols[n].sectionIdx.Some?
  {
    Home(s, objects[obj].sections[objects[obj].symbols[n].sectionIdx.value].kind)
  }

  /** Entry `i` there is a copy of the symbol's section. */
  predicate CopyOf(objects: seq<ElfObject>, s: State, obj: nat, n: nat, i: nat)
    requires AllValid(objects) && obj < |objects| && n < |objects[obj].symbols|
  {
    var idx := objects[obj].symbols[n].sectionIdx;
    && idx.Some? && i < |HomeOf(objects, s, obj, n).inputMap|
    && var e := HomeOf(objects, s, obj, n).inputMap[i];
       e.objIdx == obj && e.secIdx == idx.value
  }

  /** The symbol's offset behind that copy, before it is cut to 32 bits. */
  function Sum(objects: seq<ElfObject>, s: State, obj: nat, n: nat, i: nat): nat
    requires AllValid(objects) && obj < |objects| && n < |objects[obj].symbols| && CopyOf(objects, s, obj, n, i)
  {
    var home := HomeOf(objects, s, obj, n);
    home.va + home.inputMap[i].mergedOffset + objects[obj].symbols[n].offset
  }

  /** `va` is the address symbol `n` of object `obj` gets. */
  predicate Defines(objects: seq<ElfObject>, s: State, obj: nat, n: nat, va: u32)
    requires AllValid(objects) && obj < |objects| && n < |objects[obj].symbols|
  {
    && objects[obj].symbols[n].sectionIdx.Some?
    && exists i :: 0 <= i < |HomeOf(objects, s, obj, n).inputMap|
                   && CopyOf(objects, s, obj, n, i) && va == Sum(objects, s, obj, n, i) % TWO32
  }

  lemma SectionVaDefines(objects: seq<ElfObject>, s: State, obj: nat, n: nat)
    requires AllValid(objects) && obj < |objects| && n < |objects[obj].symbols|
    requires objects[obj].symbols[n].sectionIdx.Some?
    ensures var sym := objects[obj].symbols[n];
            var r := SectionVa(objects, s.code, s.data, obj, sym.sectionIdx.value);
            && (r.Some? ==> Defines(objects, s, obj, n, (r.value + sym.offset) % TWO32))
            && (r.None? ==> forall va :: !Defines(objects, s, obj, n, va))
  {
    var sec := objects[obj].symbols[n].sectionIdx.value;
    var home := Home(s, objects[obj].sections[sec].kind);
    FindMergedVaFinds(home, obj, sec, |home.inputMap|);
    var r := SectionVa(objects, s.code, s.data, obj, sec);
    if r.Some? {
      var i :| 0 <= i < |home.inputMap| && home.inputMap[i].objIdx == obj && home.inputMap[i].secIdx == sec
               && r.value == home.va + home.inputMap[i].mergedOffset;
      assert CopyOf(objects, s, obj, n, i);
    }
  }

  /** Some symbol of that name gets the address `va`. */
  predicate Explained(objects: seq<ElfObject>, s: State, name: string, va: u32)
    requires AllValid(objects)
  {
    exists obj, i :: 0 <= obj < |objects| && 0 <= i < |objects[obj].symbols| && objects[obj].symbols[i].name == name
                     && Defines(objects, s, obj, i, va)
  }

  predicate AllExplained(objects: seq<ElfObject>, s: State, table: map<string, u32>)
    requires AllValid(objects)
  {
    forall name :: name in table ==> Explained(objects, s, name, table[name])
  }

  lemma {:induction false} SymbolsOfExplained(objects: seq<ElfObject>, s: State, table: map<string, u32>, obj: nat, n: nat)
    requires AllValid(objects) && obj < |objects| && n <= |objects[obj].symbols|
    requires AllExplained(objects, s, table)
    ensures AllExplained(objects, s, SymbolsOf(objects, s.code, s.data, table, obj, n))
  {
    hide SectionVa, Defines;
    if n > 0 {
      SymbolsOfExplained(objects, s, table, obj, n - 1);
      if objects[obj].symbols[n - 1].sectionIdx.Some? {
        SectionVaDefines(objects, s, obj, n - 1);
      }
    }
  }

  lemma {:induction false} SymbolsOfCollects(objects: seq<ElfObject>, s: State, table: map<string, u32>, obj: nat, n: nat)
    requires AllValid(objects) && obj < |objects| && n <= |objects[obj].symbols|
    ensures var r := SymbolsOf(objects, s.code, s.data, table, obj, n);
            && table.Keys <= r.Keys
            && forall i, va :: 0 <= i < n && Defines(objects, s, obj, i, va) ==> objects[obj].symbols[i].name in r
  {
    if n > 0 {
      SymbolsOfCollects(objects, s, table, obj, n - 1);
      if objects[obj].symbols[n - 1].sectionIdx.Some? {
        SectionVaDefines(objects, s, obj, n - 1);
      }
    }
  }

  /**
   * The symbol table holds exactly the names that some input object defines in a placed
   * section, and each address is the symbol's offset inside such a placed copy.
   */
  lemma {:induction false} SymbolsPointIntoSections(objects: seq<ElfObject>, s: State, n: nat)
    requires AllValid(objects) && n <= |objects|
    ensures AllExplained(objects, s, AllSymbols(objects, s.code, s.data, n))
    ensures forall obj, i, va :: 0 <= obj < n && 0 <= i < |objects[obj].symbols| && Defines(objects, s, obj, i, va) ==>
              objects[obj].symbols[i].name in AllSymbols(objects, s.code, s.data, n)
  {
    if n > 0 {
      SymbolsPointIntoSections(objects, s, n - 1);
      var before := AllSymbols(objects, s.code, s.data, n - 1);
      SymbolsOfExplained(objects, s, before, n - 1, |objects[n - 1].symbols|);
      SymbolsOfCollects(objects, s, before, n - 1, |objects[n - 1].symbols|);
    }
  }

  // ----- addresses below the code object -----

  lemma {:induction false} MergedBases(objects: seq<ElfObject>, n: nat)
    requires n <= |objects|
    ensures AllCode(objects, n).va == CODE_OBJECT_BASE && AllData(objects, n).va == DATA_OBJECT_BASE
  {
    if n > 0 {
      MergedBases(objects, n - 1);
      PlacingKeepsBase(AllCode(objects, n - 1), AllData(objects, n - 1), n - 1, objects[n - 1], |objects[n - 1].sections|);
    }
  }

  lemma {:induction false} PlacingKeepsBase(c: Merged, d: Merged, obj: nat, o: ElfObject, n: nat)
    requires n <= |o.sections|
    ensures CodePlaced(c, obj, o, n).va == c.va && DataPlaced(d, obj, o, n).va == d.va
  {
    if n > 0 {
      PlacingKeepsBase(c, d, obj, o, n - 1);
    }
  }

  /** Code and data end below 4 GiB. */
  predicate EndsFit(s: State) {
    s.code.va + |s.code.data| < TWO32 && s.data.va + |s.data.data| < TWO32
  }

  /**
   * A symbol's address lies below the code object, so that subtracting its base goes below
   * zero, exactly when adding the symbol's offset has passed 2^32, by less than that base.
   */
  lemma BelowCodeIff(objects: seq<ElfObject>, name: string) returns (obj: nat, n: nat, i: nat)
    requires AllValid(objects) && name in Built(objects).symbols && EndsFit(Built(objects))
    ensures obj < |objects| && n < |objects[obj].symbols| && objects[obj].symbols[n].name == name
    ensures CopyOf(objects, Built(objects), obj, n, i)
    ensures var va, sum := Built(objects).symbols[name], Sum(objects, Built(objects), obj, n, i);
            va == sum % TWO32 && (va < CODE_OBJECT_BASE <==> TWO32 <= sum < TWO32 + CODE_OBJECT_BASE)
  {
    hide AllSymbols, AllCode, AllData, CopyOf, Sum;
    var s := Built(objects);
    SymbolsPointIntoSections(objects, s, |objects|);
    assert Explained(objects, s, name, s.symbols[name]);
    obj, n :| 0 <= obj < |objects| && 0 <= n < |objects[obj].symbols| && objects[obj].symbols[n].name == name
              && Defines(objects, s, obj, n, s.symbols[name]);
    i :| 0 <= i < |HomeOf(objects, s, obj, n).inputMap|
         && CopyOf(objects, s, obj, n, i) && s.symbols[name] == Sum(objects, s, obj, n, i) % TWO32;
    SumBounds(objects, obj, n, i);
  }

  lemma SumBounds(objects: seq<ElfObject>, obj: nat, n: nat, i: nat)
    requires AllValid(objects) && EndsFit(Built(objects)) && obj < |objects| && n < |objects[obj].symbols|
    requires CopyOf(objects, Built(objects), obj, n, i)
    ensures CODE_OBJECT_BASE <= Sum(objects, Built(objects), obj, n, i) < 2 * TWO32
  {
    hide AllSymbols, AllCode, AllData;
    BuildLaysOutSections(objects);
    MergedBases(objects, |objects|);
    var home := HomeOf(objects, Built(objects), obj, n);
    assert Copied(home, objects, home.inputMap[i]);
  }

  /** No symbol's offset passes 2^32. */
  ghost predicate NothingWraps(objects: seq<ElfObject>, s: State)
    requires AllValid(objects)
  {
    forall obj, n, i ::
      0 <= obj < |objects| && 0 <= n < |objects[obj].symbols| && i >= 0 && CopyOf(objects, s, obj, n, i) ==>
        Sum(objects, s, obj, n, i) < TWO32
  }

  /** Then every address, and the entry point, is at or above the code object. */
  lemma NothingBelowCode(objects: seq<ElfObject>)
    requires AllValid(objects) && EndsFit(Built(objects)) && NothingWraps(objects, Built(objects))
    ensures Built(objects).entryVa >= CODE_OBJECT_BASE
    ensures forall name :: name in Built(objects).symbols ==> Built(objects).symbols[name] >= CODE_OBJECT_BASE
  {
    hide AllSymbols, AllCode, AllData, CopyOf, Sum;
    forall name | name in Built(objects).symbols
      ensures Built(objects).symbols[name] >= CODE_OBJECT_BASE
    {
      var obj, n, i := BelowCodeIff(objects, name);
    }
  }
}
