/**
 * Which section a reference by name means (src/bin/lx_link.rs:258-292 and 788-797).  The reader
 * turns every relocation against a symbol of its own object into one against the name of that
 * symbol's section; the writer takes the first section of that name in all of the input.
 */
module SectionReferences {
  import opened Bytes
  import opened Wrappers
  import opened LinkerState
  import opened SectionMerging
  import opened LxWriter
  import opened LinkLoad

  /** The look-up of a section among the merged code, then among the merged data. */
  function Lookup(s: State, obj: nat, sec: nat): Option<nat> {
    var code := FindMergedVa(s.code, obj, sec);
    if code.Some? then code else FindMergedVa(s.data, obj, sec)
  }

  predicate Named(objects: seq<ElfObject>, obj: nat, sec: nat, name: string) {
    obj < |objects| && sec < |objects[obj].sections| && objects[obj].sections[sec].name == name
  }

  /** No section before this one, in the order of the input, has its name. */
  predicate FirstOfItsName(objects: seq<ElfObject>, obj: nat, sec: nat)
    requires obj < |objects| && sec < |objects[obj].sections|
  {
    forall o, k :: 0 <= o < |objects| && 0 <= k < |objects[o].sections| && (o < obj || (o == obj && k < sec)) ==>
      !Named(objects, o, k, objects[obj].sections[sec].name)
  }

  /** Every section of that name has bytes. */
  predicate NonEmpty(objects: seq<ElfObject>, name: string) {
    forall o, k :: 0 <= o < |objects| && 0 <= k < |objects[o].sections| && Named(objects, o, k, name) ==>
      objects[o].sections[k].data != []
  }

  // ----- what the search finds -----

  lemma {:induction false} FoundIn(objects: seq<ElfObject>, s: State, name: string, obj: nat, sec: nat) returns (k: nat)
    requires obj < |objects| && sec <= |objects[obj].sections|
    ensures var r := FindSectionIn(objects, s, name, obj, sec);
            if k < |objects[obj].sections|
            then k >= sec && Named(objects, obj, k, name) && r == Some(Lookup(s, obj, k))
            else r == None
    ensures forall j :: sec <= j < k && j < |objects[obj].sections| ==> !Named(objects, obj, j, name)
    decreases |objects[obj].sections| - sec
  {
    if sec == |objects[obj].sections| || objects[obj].sections[sec].name == name {
      k := sec;
    } else {
      k := FoundIn(objects, s, name, obj, sec + 1);
    }
  }

  /** The search from object `from` on finds the first section of that name there. */
  lemma {:induction false} FoundFirst(objects: seq<ElfObject>, s: State, name: string, from: nat) returns (obj: nat, sec: nat)
    requires from <= |objects|
    ensures var r := FindSectionVa(objects, s, name, from);
            if obj < |objects| then obj >= from && Named(objects, obj, sec, name) && r == Lookup(s, obj, sec) else r == None
    ensures forall o, k :: from <= o < |objects| && 0 <= k < |objects[o].sections| && (o < obj || (o == obj && k < sec)) ==>
              !Named(objects, o, k, name)
    decreases |objects| - from
  {
    if from == |objects| {
      obj, sec := from, 0;
    } else {
      var k := FoundIn(objects, s, name, from, 0);
      if k < |objects[from].sections| {
        obj, sec := from, k;
      } else {
        obj, sec := FoundFirst(objects, s, name, from + 1);
      }
    }
  }

  // ----- different sections lie at different addresses -----

  lemma LookupFinds(s: State, obj: nat, sec: nat) returns (isCode: bool, i: nat)
    requires Lookup(s, obj, sec).Some?
    ensures var m := if isCode then s.code else s.data;
            && i < |m.inputMap| && m.inputMap[i].objIdx == obj && m.inputMap[i].secIdx == sec
            && Lookup(s, obj, sec) == Some(m.va + m.inputMap[i].mergedOffset)
  {
    FindMergedVaFinds(s.code, obj, sec, |s.code.inputMap|);
    FindMergedVaFinds(s.data, obj, sec, |s.data.inputMap|);
    isCode := FindMergedVa(s.code, obj, sec).Some?;
    var m := if isCode then s.code else s.data;
    i :| 0 <= i < |m.inputMap| && m.inputMap[i].objIdx == obj && m.inputMap[i].secIdx == sec
         && Lookup(s, obj, sec).value == m.va + m.inputMap[i].mergedOffset;
  }

  lemma AddressesDiffer(objects: seq<ElfObject>, o: nat, k: nat, obj: nat, sec: nat)
    requires AllValid(objects) && SizesFit(Built(objects)) && (o != obj || k != sec)
    requires o < |objects| && k < |objects[o].sections| && objects[o].sections[k].data != []
    requires obj < |objects| && sec < |objects[obj].sections| && objects[obj].sections[sec].data != []
    requires Lookup(Built(objects), o, k).Some? && Lookup(Built(objects), obj, sec).Some?
    ensures Lookup(Built(objects), o, k) != Lookup(Built(objects), obj, sec)
  {
    hide AllCode, AllData, AllSymbols, Lookup;
    var s := Built(objects);
    BuildLaysOutSections(objects);
    MergedBases(objects, |objects|);
    var isCode, i := LookupFinds(s, o, k);
    var isCode', j := LookupFinds(s, obj, sec);
    var m, m' := if isCode then s.code else s.data, if isCode' then s.code else s.data;
    assert Copied(m, objects, m.inputMap[i]) && Copied(m', objects, m'.inputMap[j]);
    if isCode == isCode' && i != j {
      EntriesApart(m, objects, i, j);
    }
  }

  lemma EntriesApart(m: Merged, objects: seq<ElfObject>, i: nat, j: nat)
    requires Laid(m, objects) && i < |m.inputMap| && j < |m.inputMap| && i != j
    requires Names(m.inputMap[i], objects) && Input(m.inputMap[i], objects).data != []
    requires Names(m.inputMap[j], objects) && Input(m.inputMap[j], objects).data != []
    ensures m.inputMap[i].mergedOffset != m.inputMap[j].mergedOffset
  {
    if i < j {
      assert End(m.inputMap[i], objects) <= m.inputMap[j].mergedOffset;
    } else {
      assert End(m.inputMap[j], objects) <= m.inputMap[i].mergedOffset;
    }
  }

  lemma LookupSucceeds(objects: seq<ElfObject>, obj: nat, sec: nat)
    requires AllValid(objects) && obj < |objects| && sec < |objects[obj].sections|
    requires objects[obj].sections[sec].kind != UninitializedData
    ensures Lookup(Built(objects), obj, sec).Some?
  {
    hide AllCode, AllData, AllSymbols;
    var s := Built(objects);
    if objects[obj].sections[sec].kind == Text {
      CodePlacesObject(objects, obj, sec, |objects|);
    } else {
      DataPlacesObject(objects, obj, sec, |objects|);
    }
    FindMergedVaFinds(s.code, obj, sec, |s.code.inputMap|);
    FindMergedVaFinds(s.data, obj, sec, |s.data.inputMap|);
  }

  // ----- a reference to one's own section -----

  /**
   * A reference to a placed section by its name resolves to that section if and only if no
   * section before it in the input, of its own object or another, has the same name.
   */
  lemma ReferenceIsOwnIff(objects: seq<ElfObject>, obj: nat, sec: nat)
    requires AllValid(objects) && SizesFit(Built(objects)) && obj < |objects| && sec < |objects[obj].sections|
    requires objects[obj].sections[sec].kind != UninitializedData && NonEmpty(objects, objects[obj].sections[sec].name)
    ensures Lookup(Built(objects), obj, sec).Some?
    ensures FindSectionVa(objects, Built(objects), objects[obj].sections[sec].name) == Lookup(Built(objects), obj, sec)
            <==> FirstOfItsName(objects, obj, sec)
  {
    hide Built, Lookup, FindSectionVa, SizesFit;
    var name := objects[obj].sections[sec].name;
    LookupSucceeds(objects, obj, sec);
    var o, k := FoundFirst(objects, Built(objects), name, 0);
    assert Named(objects, obj, sec, name);
    if o < |objects| && (o != obj || k != sec) && Lookup(Built(objects), o, k).Some? {
      AddressesDiffer(objects, o, k, obj, sec);
    }
    assert o < |objects| && (o < obj || (o == obj && k < sec)) ==> Named(objects, o, k, name);
  }

  // ----- two objects with code -----

  const ONE_BYTE := ElfObject([ElfSection(".text", Text, [0], 1, [])], [])

  /** In two objects of one code section each, the second's reference to its own code means the first's. */
  lemma SecondTextMeansFirst()
    ensures var objects := [ONE_BYTE, ONE_BYTE];
            && AllValid(objects)
            && Lookup(Built(objects), 1, 0) == Some(CODE_OBJECT_BASE + 1)
            && FindSectionVa(objects, Built(objects), ".text") == Some(CODE_OBJECT_BASE)
  {
    var objects := [ONE_BYTE, ONE_BYTE];
    var start := Merged([], 0, CODE_OBJECT_BASE, []);
    var first := Merged([0], 0, CODE_OBJECT_BASE, [InputEntry(0, 0, 0)]);
    var both := Merged([0, 0], 0, CODE_OBJECT_BASE, [InputEntry(0, 0, 0), InputEntry(1, 0, 1)]);
    assert CodePlaced(start, 0, ONE_BYTE, 0) == start && CodePlaced(start, 0, ONE_BYTE, 1) == first;
    assert CodePlaced(first, 1, ONE_BYTE, 0) == first && CodePlaced(first, 1, ONE_BYTE, 1) == both;
    assert AllCode(objects, 0) == start && AllCode(objects, 1) == first && AllCode(objects, 2) == both;
    assert FindMergedVa(both, 0, 0, 0) == None && FindMergedVa(both, 0, 0, 1) == Some(CODE_OBJECT_BASE);
    assert FindMergedVa(both, 1, 0, 0) == None && FindMergedVa(both, 1, 0, 1) == None;
    assert FindSectionIn(objects, Built(objects), ".text", 0, 0) == Some(Some(CODE_OBJECT_BASE));
  }
}
