/**
 * What relocations mean in loaded memory, in terms of the input alone: each word is read back
 * and compared with the definitions of the symbol it names (src/bin/lx_link.rs:354-417 and
 * 516-582, src/loader/lx_loader.rs:31-151).
 */
module LinkedSymbols {
  import opened Bytes
  import opened Wrappers
  import opened GuestMem
  import opened LinkerState
  import opened Imports
  import opened SectionMerging
  import opened LxWriter
  import opened LxRoundTrip
  import opened LinkLoad
  import opened LoadedImage
  import opened SectionReferences
  import L = LxLoader

  // ----- definitions -----

  /** Symbol `n` of object `o` has that name and lies in a section that was placed. */
  predicate Defined(objects: seq<ElfObject>, s: State, o: nat, n: nat, name: string)
    requires AllValid(objects)
  {
    && o < |objects| && n < |objects[o].symbols| && objects[o].symbols[n].name == name
    && objects[o].symbols[n].sectionIdx.Some?
    && exists i :: 0 <= i < |HomeOf(objects, s, o, n).inputMap| && CopyOf(objects, s, o, n, i)
  }

  predicate Earlier(o: nat, n: nat, o': nat, n': nat) {
    o < o' || (o == o' && n < n')
  }

  /** The definition that counts: no later one has the name. */
  ghost predicate LastDefinition(objects: seq<ElfObject>, s: State, o: nat, n: nat, name: string)
    requires AllValid(objects)
  {
    Defined(objects, s, o, n, name) && forall o', n' :: Defined(objects, s, o', n', name) ==> !Earlier(o, n, o', n')
  }

  ghost predicate IsDefined(objects: seq<ElfObject>, s: State, name: string)
    requires AllValid(objects)
  {
    exists o, n :: Defined(objects, s, o, n, name)
  }

  // ----- the symbol table holds the last definitions -----

  /** `table` describes the symbols before symbol `n` of object `obj`. */
  ghost predicate Describes(objects: seq<ElfObject>, s: State, table: map<string, u32>, obj: nat, n: nat)
    requires AllValid(objects)
  {
    && (forall o, k, name :: Defined(objects, s, o, k, name) && Earlier(o, k, obj, n) ==> name in table)
    && (forall name :: name in table ==> LatestBefore(objects, s, name, table[name], obj, n))
  }

  /** The last definition before that one gives `va`. */
  ghost predicate LatestBefore(objects: seq<ElfObject>, s: State, name: string, va: u32, obj: nat, n: nat)
    requires AllValid(objects)
  {
    exists o, k ::
      && Defined(objects, s, o, k, name) && Earlier(o, k, obj, n)
      && Defines(objects, s, o, k, va)
      && forall o', k' :: Defined(objects, s, o', k', name) && Earlier(o', k', obj, n) ==> !Earlier(o, k, o', k')
  }

  lemma DefinesDefined(objects: seq<ElfObject>, s: State, o: nat, n: nat, va: u32)
    requires AllValid(objects) && o < |objects| && n < |objects[o].symbols| && Defines(objects, s, o, n, va)
    ensures Defined(objects, s, o, n, objects[o].symbols[n].name)
  {
  }

  /** Entering one symbol more. */
  lemma EnterSymbol(objects: seq<ElfObject>, s: State, table: map<string, u32>, obj: nat, n: nat, va: u32)
    requires AllValid(objects) && obj < |objects| && n < |objects[obj].symbols|
    requires Describes(objects, s, table, obj, n) && Defines(objects, s, obj, n, va)
    ensures Describes(objects, s, table[objects[obj].symbols[n].name := va], obj, n + 1)
  {
    hide Defines, Defined;
    var name := objects[obj].symbols[n].name;
    var after := table[name := va];
    DefinesDefined(objects, s, obj, n, va);
    forall other | other in after
      ensures LatestBefore(objects, s, other, after[other], obj, n + 1)
    {
      if other == name {
        assert Defined(objects, s, obj, n, name);
      } else {
        OnlyItsName(objects, s, obj, n, other);
        StillLatest(objects, s, other, table[other], obj, n);
      }
    }
    forall o, k, other | Defined(objects, s, o, k, other) && Earlier(o, k, obj, n + 1)
      ensures other in after
    {
      if o == obj && k == n {
        OnlyItsName(objects, s, obj, n, other);
      }
    }
  }

  lemma OnlyItsName(objects: seq<ElfObject>, s: State, o: nat, n: nat, name: string)
    requires AllValid(objects) && o < |objects| && n < |objects[o].symbols|
    ensures Defined(objects, s, o, n, name) ==> objects[o].symbols[n].name == name
  {
  }

  lemma StillLatest(objects: seq<ElfObject>, s: State, name: string, va: u32, obj: nat, n: nat)
    requires AllValid(objects) && LatestBefore(objects, s, name, va, obj, n) && !Defined(objects, s, obj, n, name)
    ensures LatestBefore(objects, s, name, va, obj, n + 1)
  {
    hide Defines;
    var o, k :|
      && Defined(objects, s, o, k, name) && Earlier(o, k, obj, n)
      && Defines(objects, s, o, k, va)
      && forall o', k' :: Defined(objects, s, o', k', name) && Earlier(o', k', obj, n) ==> !Earlier(o, k, o', k');
    assert Earlier(o, k, obj, n + 1);
  }

  /** A symbol without a placed section enters nothing. */
  lemma SkipSymbol(objects: seq<ElfObject>, s: State, table: map<string, u32>, obj: nat, n: nat)
    requires AllValid(objects) && obj < |objects| && n < |objects[obj].symbols|
    requires Describes(objects, s, table, obj, n) && !Defined(objects, s, obj, n, objects[obj].symbols[n].name)
    ensures Describes(objects, s, table, obj, n + 1)
  {
    hide Defines, Defined;
    forall name | name in table
      ensures LatestBefore(objects, s, name, table[name], obj, n + 1)
    {
      OnlyItsName(objects, s, obj, n, name);
      StillLatest(objects, s, name, table[name], obj, n);
    }
    forall o, k, name | Defined(objects, s, o, k, name) && Earlier(o, k, obj, n + 1)
      ensures name in table
    {
      if o == obj && k == n {
        OnlyItsName(objects, s, obj, n, name);
      }
    }
  }

  lemma {:induction false} SymbolsOfDescribe(objects: seq<ElfObject>, s: State, table: map<string, u32>, obj: nat, n: nat)
    requires AllValid(objects) && obj < |objects| && n <= |objects[obj].symbols| && Describes(objects, s, table, obj, 0)
    ensures Describes(objects, s, SymbolsOf(objects, s.code, s.data, table, obj, n), obj, n)
  {
    hide Describes, Defines, SectionVa;
    if n > 0 {
      SymbolsOfDescribe(objects, s, table, obj, n - 1);
      var before := SymbolsOf(objects, s.code, s.data, table, obj, n - 1);
      var sym := objects[obj].symbols[n - 1];
      if sym.sectionIdx.Some? {
        SectionVaDefines(objects, s, obj, n - 1);
        var va := SectionVa(objects, s.code, s.data, obj, sym.sectionIdx.value);
        if va.Some? {
          EnterSymbol(objects, s, before, obj, n - 1, (va.value + sym.offset) % TWO32);
        } else {
          UndefinedIfNowhere(objects, s, obj, n - 1);
          SkipSymbol(objects, s, before, obj, n - 1);
        }
      } else {
        SkipSymbol(objects, s, before, obj, n - 1);
      }
    }
  }

  lemma UndefinedIfNowhere(objects: seq<ElfObject>, s: State, obj: nat, n: nat)
    requires AllValid(objects) && obj < |objects| && n < |objects[obj].symbols|
    requires forall va :: !Defines(objects, s, obj, n, va)
    ensures !Defined(objects, s, obj, n, objects[obj].symbols[n].name)
  {
    if Defined(objects, s, obj, n, objects[obj].symbols[n].name) {
      var i :| 0 <= i < |HomeOf(objects, s, obj, n).inputMap| && CopyOf(objects, s, obj, n, i);
      assert Defines(objects, s, obj, n, Sum(objects, s, obj, n, i) % TWO32);
    }
  }

  lemma {:induction false} AllSymbolsDescribe(objects: seq<ElfObject>, s: State, n: nat)
    requires AllValid(objects) && n <= |objects|
    ensures Describes(objects, s, AllSymbols(objects, s.code, s.data, n), n, 0)
  {
    hide Defined, Defines;
    if n > 0 {
      AllSymbolsDescribe(objects, s, n - 1);
      var before := AllSymbols(objects, s.code, s.data, n - 1);
      SymbolsOfDescribe(objects, s, before, n - 1, |objects[n - 1].symbols|);
      NextObject(objects, s, AllSymbols(objects, s.code, s.data, n), n - 1);
    }
  }

  lemma NextObject(objects: seq<ElfObject>, s: State, table: map<string, u32>, obj: nat)
    requires AllValid(objects) && obj < |objects| && Describes(objects, s, table, obj, |objects[obj].symbols|)
    ensures Describes(objects, s, table, obj + 1, 0)
  {
    hide Defines;
    forall name | name in table
      ensures LatestBefore(objects, s, name, table[name], obj + 1, 0)
    {
      assert LatestBefore(objects, s, name, table[name], obj, |objects[obj].symbols|);
    }
  }

  /** The table has exactly the defined names, each with the address of its last definition. */
  lemma TableHoldsLastDefinitions(objects: seq<ElfObject>, name: string)
    requires AllValid(objects)
    ensures var s := Built(objects);
            && (name in s.symbols <==> IsDefined(objects, s, name))
            && forall o, n, i :: LastDefinition(objects, s, o, n, name) && i >= 0 && CopyOf(objects, s, o, n, i) ==>
                 name in s.symbols && s.symbols[name] == Sum(objects, s, o, n, i) % TWO32
  {
    hide AllSymbols, AllCode, AllData, CopyOf, Sum;
    var s := Built(objects);
    AllSymbolsDescribe(objects, s, |objects|);
    assert forall o, n :: Defined(objects, s, o, n, name) ==> Earlier(o, n, |objects|, 0);
    if name in s.symbols {
      assert LatestBefore(objects, s, name, s.symbols[name], |objects|, 0);
    }
    forall o, n, i | LastDefinition(objects, s, o, n, name) && i >= 0 && CopyOf(objects, s, o, n, i)
      ensures name in s.symbols && s.symbols[name] == Sum(objects, s, o, n, i) % TWO32
    {
      LastIsLatest(objects, name, o, n, i);
    }
  }

  /** A defined name has a last definition. */
  lemma LastDefinitionExists(objects: seq<ElfObject>, name: string) returns (o: nat, n: nat, i: nat)
    requires AllValid(objects) && IsDefined(objects, Built(objects), name)
    ensures LastDefinition(objects, Built(objects), o, n, name) && CopyOf(objects, Built(objects), o, n, i)
  {
    hide AllSymbols, AllCode, AllData, CopyOf, Sum, Defines;
    var s := Built(objects);
    AllSymbolsDescribe(objects, s, |objects|);
    assert forall o', n' :: Defined(objects, s, o', n', name) ==> Earlier(o', n', |objects|, 0);
    assert LatestBefore(objects, s, name, s.symbols[name], |objects|, 0);
    o, n :|
      && Defined(objects, s, o, n, name) && Earlier(o, n, |objects|, 0)
      && Defines(objects, s, o, n, s.symbols[name])
      && forall o', n' :: Defined(objects, s, o', n', name) && Earlier(o', n', |objects|, 0) ==> !Earlier(o, n, o', n');
    i :| 0 <= i < |HomeOf(objects, s, o, n).inputMap| && CopyOf(objects, s, o, n, i);
  }

  lemma LastIsLatest(objects: seq<ElfObject>, name: string, o: nat, n: nat, i: nat)
    requires AllValid(objects) && LastDefinition(objects, Built(objects), o, n, name) && CopyOf(objects, Built(objects), o, n, i)
    requires name in Built(objects).symbols && LatestBefore(objects, Built(objects), name, Built(objects).symbols[name], |objects|, 0)
    ensures Built(objects).symbols[name] == Sum(objects, Built(objects), o, n, i) % TWO32
  {
    hide AllSymbols, AllCode, AllData, CopyOf, Sum, Laid;
    var s := Built(objects);
    var o', n' :|
      && Defined(objects, s, o', n', name) && Earlier(o', n', |objects|, 0)
      && Defines(objects, s, o', n', s.symbols[name])
      && forall o2, k2 :: Defined(objects, s, o2, k2, name) && Earlier(o2, k2, |objects|, 0) ==> !Earlier(o', n', o2, k2);
    assert o' == o && n' == n;
    var j :| 0 <= j < |HomeOf(objects, s, o, n).inputMap| && CopyOf(objects, s, o, n, j) && s.symbols[name] == Sum(objects, s, o, n, j) % TWO32;
    BuildLaysOutSections(objects);
    CopyIsUnique(objects, s, o, n, i, j);
  }

  lemma CopyIsUnique(objects: seq<ElfObject>, s: State, o: nat, n: nat, i: nat, j: nat)
    requires AllValid(objects) && Laid(s.code, objects) && Laid(s.data, objects)
    requires o < |objects| && n < |objects[o].symbols| && CopyOf(objects, s, o, n, i) && CopyOf(objects, s, o, n, j)
    ensures i == j
  {
    var home := HomeOf(objects, s, o, n);
    assert i < j ==> Before(home.inputMap[i], home.inputMap[j].objIdx, home.inputMap[j].secIdx);
    assert j < i ==> Before(home.inputMap[j], home.inputMap[i].objIdx, home.inputMap[i].secIdx);
  }

  // ----- from a section's relocation to its place in memory -----

  /** Entry `i` of the merged object is a copy of that section. */
  predicate SectionCopy(m: Merged, i: nat, obj: nat, sec: nat) {
    i < |m.inputMap| && m.inputMap[i].objIdx == obj && m.inputMap[i].secIdx == sec
  }

  lemma {:induction false} InObjectItems(env: Env, obj: nat, sec: nat, n: nat, x: Item)
    requires obj < |env.objects| && sec < n <= |env.objects[obj].sections| && x in SectionItems(env, obj, sec)
    ensures x in ObjectItems(env, obj, n)
  {
    hide SectionItems;
    if sec < n - 1 {
      InObjectItems(env, obj, sec, n - 1, x);
    }
  }

  lemma {:induction false} InItems(env: Env, obj: nat, n: nat, x: Item)
    requires obj < n <= |env.objects| && x in ObjectItems(env, obj, |env.objects[obj].sections|)
    ensures x in Items(env, n)
  {
    hide ObjectItems;
    if obj < n - 1 {
      InItems(env, obj, n - 1, x);
    }
  }

  /** The relocation pass visits every relocation of every placed section, at its place in the copy. */
  lemma RelocIsVisited(env: Env, obj: nat, sec: nat, k: nat, i: nat) returns (j: nat)
    requires env.Valid() && obj < |env.objects| && sec < |env.objects[obj].sections|
    requires k < |env.objects[obj].sections[sec].relocs|
    requires SectionCopy(Home(env.state, env.objects[obj].sections[sec].kind), i, obj, sec)
    ensures var section := env.objects[obj].sections[sec];
            var m, reloc := Home(env.state, section.kind), section.relocs[k];
            && j < |Items(env)| && Items(env)[j] == Item(section.kind == Text, m.inputMap[i].mergedOffset + reloc.offset, reloc)
            && m.va == ObjectBase(section.kind == Text)
  {
    hide AllSymbols, AllCode, AllData, Items, ObjectItems, Laid;
    var section := env.objects[obj].sections[sec];
    var m := Home(env.state, section.kind);
    BuildLaysOutSections(env.objects);
    MergedBases(env.objects, |env.objects|);
    FindMergedVaFinds(m, obj, sec, |m.inputMap|);
    assert FindMergedVa(m, obj, sec).Some?;
    var i' :| 0 <= i' < |m.inputMap| && m.inputMap[i'].objIdx == obj && m.inputMap[i'].secIdx == sec
              && FindMergedVa(m, obj, sec).value == m.va + m.inputMap[i'].mergedOffset;
    EntryIsUnique(m, env.objects, i, i');
    var x := Item(section.kind == Text, m.inputMap[i].mergedOffset + section.relocs[k].offset, section.relocs[k]);
    assert SectionItems(env, obj, sec)[k] == x;
    InObjectItems(env, obj, sec, |env.objects[obj].sections|, x);
    InItems(env, obj, |env.objects|, x);
    j :| 0 <= j < |Items(env)| && Items(env)[j] == x;
  }

  lemma EntryIsUnique(m: Merged, objects: seq<ElfObject>, i: nat, j: nat)
    requires Laid(m, objects) && i < |m.inputMap| && j < |m.inputMap|
    requires m.inputMap[i].objIdx == m.inputMap[j].objIdx && m.inputMap[i].secIdx == m.inputMap[j].secIdx
    ensures i == j
  {
    assert i < j ==> Before(m.inputMap[i], m.inputMap[j].objIdx, m.inputMap[j].secIdx);
    assert j < i ==> Before(m.inputMap[j], m.inputMap[i].objIdx, m.inputMap[i].secIdx);
  }

  /** The word at `site` means `target`, in the way of its kind. */
  predicate Means(r: seq<byte>, site: nat, reloc: Reloc, target: nat) {
    && site + 4 <= |r|
    && match reloc.kind
       case Absolute => Get32(r, site) == target
       case Relative => (Get32(r, site) + site + 4 - reloc.addend) % TWO32 == target
       case OtherKind => true
  }

  /** The four bytes at `site` are those of the section's own data. */
  predicate Keeps(r: seq<byte>, site: nat, data: seq<byte>, offset: nat) {
    site + 4 <= |r| && offset + 4 <= |data| && r[site..site + 4] == data[offset..offset + 4]
  }

  lemma VisitedMeans(env: Env, mem: seq<byte>, r: seq<byte>, j: nat)
    requires Linkable(env) && MEMORY_TOP <= |mem| && LoadedRight(env, mem, r) && j < |Items(env)|
    requires Items(env)[j].reloc.kind != OtherKind && TargetVa(env, Items(env)[j].reloc.target) != 0
    ensures var x := Items(env)[j];
            Means(r, ObjectBase(x.isCode) + x.at, x.reloc, TargetVa(env, x.reloc.target))
  {
    hide Linkable, Items, LoadedRight, Get32, TargetVa;
    var x := Items(env)[j];
    if x.reloc.kind == Absolute {
      ResolvedWord(env, mem, r, j);
    } else {
      JumpsReachTargets(env, mem, r, j);
      Subtract(Get32(r, ObjectBase(x.isCode) + x.at) + ObjectBase(x.isCode) + x.at + 4, TargetVa(env, x.reloc.target), x.reloc.addend);
    }
  }

  lemma Subtract(sum: int, target: u32, addend: int)
    requires sum % TWO32 == (target + addend) % TWO32
    ensures (sum - addend) % TWO32 == target
  {
  }

  // ----- bytes that no relocation touches -----

  /** No relocation that resolves covers byte `p` of the buffer. */
  predicate Untouched(env: Env, isCode: bool, p: nat) {
    forall j :: 0 <= j < |Items(env)| && Items(env)[j].isCode == isCode && Patched(env, Items(env)[j]) ==>
      p < Items(env)[j].at || Items(env)[j].at + 4 <= p
  }

  lemma UntouchedInImage(env: Env, isCode: bool, p: nat)
    requires Linkable(env) && p < |Buffer(env, isCode)| && Untouched(env, isCode, p)
    ensures p < |ImageSide(ImageOf(env), isCode)| && ImageSide(ImageOf(env), isCode)[p] == Buffer(env, isCode)[p]
  {
    hide Items, Fold, Linkable, PatchOf, Patched, L.AllFit, NoneEmpty, Apply, Untouched, SidePatches, Covered;
    LinkableParts(env);
    var items := Items(env);
    var pass := Fold(env, items);
    FoldPatches(env, items);
    SidePatchesApart(env, items, isCode);
    NoPatchCovers(env, isCode, p);
    if isCode {
      PaddedKeeps(env.state.code.data, SidePatches(env, items, true), pass.codePatches, pass.codePcPatches, p);
    } else {
      PaddedKeeps(env.state.data.data, SidePatches(env, items, false), pass.dataPatches, [], p);
      assert pass.dataPatches + [] == pass.dataPatches;
      ApplyNothing(Apply(env.state.data.data, pass.dataPatches));
    }
  }

  lemma ApplyNothing(m: seq<byte>)
    ensures Apply(m, []) == m
  {
  }

  lemma NoPatchCovers(env: Env, isCode: bool, p: nat)
    requires Untouched(env, isCode, p)
    ensures !Covered(SidePatches(env, Items(env), isCode), p)
  {
    hide Items, PatchOf, Patched, SidePatches;
    var ws := SidePatches(env, Items(env), isCode);
    SidePatchesFrom(env, Items(env), isCode);
    forall k | 0 <= k < |ws|
      ensures !(ws[k].addr <= p < ws[k].addr + |ws[k].data|)
    {
      assert PatchFrom(env, Items(env), isCode, ws[k]);
      var j :| 0 <= j < |Items(env)| && Items(env)[j].isCode == isCode && Patched(env, Items(env)[j]) && ws[k] == PatchOf(env, Items(env)[j]);
      PatchShape(env, Items(env)[j]);
    }
  }

  lemma PaddedKeeps(data: seq<byte>, all: seq<Write>, first: seq<Write>, second: seq<Write>, p: nat)
    requires PairwiseApart(all) && NoneEmpty(all) && L.AllFit(all, |data|) && multiset(all) == multiset(first + second)
    requires p < |data| && !Covered(all, p)
    ensures var image := PadToPage(Apply(Apply(data, first), second)); p < |image| && image[p] == data[p]
  {
    ApplyConcat(data, first, second);
    ApplyRearranged(data, all, first + second);
  }

  lemma UntouchedInMemory(env: Env, mem: seq<byte>, r: seq<byte>, isCode: bool, p: nat)
    requires Linkable(env) && MEMORY_TOP <= |mem| && LoadedRight(env, mem, r)
    requires p < |Buffer(env, isCode)| && Untouched(env, isCode, p)
    ensures ObjectBase(isCode) + p < |r| && r[ObjectBase(isCode) + p] == Buffer(env, isCode)[p]
  {
    hide Items, ImageOf, Linkable, TargetWrites, Landed, Covered, Untouched, Patched, TargetWrite, Resolved;
    LinkableParts(env);
    ImageSizes(env);
    UntouchedInImage(env, isCode, p);
    NoTargetCovers(env, isCode, p);
    assert r[ObjectBase(isCode) + p] == Mapped(ImageOf(env), mem, ObjectBase(isCode) + p);
  }

  lemma NoTargetCovers(env: Env, isCode: bool, p: nat)
    requires Linkable(env) && p < |Buffer(env, isCode)| && Untouched(env, isCode, p)
    ensures !Covered(TargetWrites(env, Items(env)), ObjectBase(isCode) + p)
  {
    hide Items, Linkable, TargetWrites, Covered, PatchOf, TargetWrite;
    LinkableParts(env);
    var ws := TargetWrites(env, Items(env));
    assert forall j :: 0 <= j < |Items(env)| ==> InSection(env, Items(env)[j]);
    if Covered(ws, ObjectBase(isCode) + p) {
      var j := CoveringItem(env, ObjectBase(isCode) + p);
      assert false;
    }
  }

  /** A relocation that resolves to nothing, or is of another kind, leaves its site as it is. */
  lemma VisitedKeeps(env: Env, mem: seq<byte>, r: seq<byte>, j: nat)
    requires Linkable(env) && MEMORY_TOP <= |mem| && LoadedRight(env, mem, r) && j < |Items(env)|
    requires !Patched(env, Items(env)[j])
    ensures var x := Items(env)[j]; Keeps(r, ObjectBase(x.isCode) + x.at, Buffer(env, x.isCode), x.at)
  {
    hide Items, Linkable, LoadedRight, Patched;
    LinkableParts(env);
    var x := Items(env)[j];
    assert InSection(env, x);
    var base, data := ObjectBase(x.isCode), Buffer(env, x.isCode);
    forall p | x.at <= p < x.at + 4
      ensures ByteKept(r, base, data, p)
    {
      OwnSite(env, j, p);
      UntouchedInMemory(env, mem, r, x.isCode, p);
    }
    FourKept(r, base, data, x.at);
  }

  predicate ByteKept(r: seq<byte>, base: nat, data: seq<byte>, p: nat) {
    p < |data| && base + p < |r| && r[base + p] == data[p]
  }

  lemma FourKept(r: seq<byte>, base: nat, data: seq<byte>, at: nat)
    requires forall p :: at <= p < at + 4 ==> ByteKept(r, base, data, p)
    ensures Keeps(r, base + at, data, at)
  {
    assert ByteKept(r, base, data, at) && ByteKept(r, base, data, at + 1) && ByteKept(r, base, data, at + 2);
    assert ByteKept(r, base, data, at + 3);
    var here, there := r[base + at..base + at + 4], data[at..at + 4];
    assert here[0] == there[0] && here[1] == there[1] && here[2] == there[2] && here[3] == there[3];
  }

  lemma OwnSite(env: Env, j: nat, p: nat)
    requires SitesApart(Items(env)) && j < |Items(env)| && !Patched(env, Items(env)[j])
    requires Items(env)[j].at <= p < Items(env)[j].at + 4
    ensures Untouched(env, Items(env)[j].isCode, p)
  {
    hide Items, Patched;
  }

  // ----- what a symbol means -----

  /** Relocation `k` of section `sec` of object `obj`, in copy `i` of that section. */
  predicate IsReloc(env: Env, obj: nat, sec: nat, k: nat, i: nat) {
    && obj < |env.objects| && sec < |env.objects[obj].sections|
    && k < |env.objects[obj].sections[sec].relocs|
    && SectionCopy(Home(env.state, env.objects[obj].sections[sec].kind), i, obj, sec)
  }

  function RelocOf(env: Env, obj: nat, sec: nat, k: nat, i: nat): Reloc
    requires IsReloc(env, obj, sec, k, i)
  {
    env.objects[obj].sections[sec].relocs[k]
  }

  /** Where it lies in memory: its offset behind the copy of its section. */
  function SiteOf(env: Env, obj: nat, sec: nat, k: nat, i: nat): nat
    requires IsReloc(env, obj, sec, k, i)
  {
    var m := Home(env.state, env.objects[obj].sections[sec].kind);
    m.va + m.inputMap[i].mergedOffset + RelocOf(env, obj, sec, k, i).offset
  }

  /** The site holds what the section holds there; for a site inside its own section. */
  predicate SiteKept(env: Env, r: seq<byte>, obj: nat, sec: nat, k: nat, i: nat)
    requires IsReloc(env, obj, sec, k, i)
  {
    var data, offset := env.objects[obj].sections[sec].data, RelocOf(env, obj, sec, k, i).offset;
    offset + 4 <= |data| ==> Keeps(r, SiteOf(env, obj, sec, k, i), data, offset)
  }

  /** A relocation whose target has an address takes it, any other keeps the section's bytes. */
  lemma RelocDecides(env: Env, mem: seq<byte>, r: seq<byte>, obj: nat, sec: nat, k: nat, i: nat)
    requires Linkable(env) && MEMORY_TOP <= |mem| && LoadedRight(env, mem, r) && IsReloc(env, obj, sec, k, i)
    ensures var reloc := RelocOf(env, obj, sec, k, i);
            var target := TargetVa(env, reloc.target);
            if target != 0 && reloc.kind != OtherKind
            then Means(r, SiteOf(env, obj, sec, k, i), reloc, target)
            else SiteKept(env, r, obj, sec, k, i)
  {
    hide Linkable, LoadedRight, Items, TargetVa, Means, Keeps;
    LinkableParts(env);
    var j := RelocIsVisited(env, obj, sec, k, i);
    var x := Items(env)[j];
    if TargetVa(env, x.reloc.target) != 0 && x.reloc.kind != OtherKind {
      VisitedMeans(env, mem, r, j);
    } else {
      VisitedKeeps(env, mem, r, j);
      CopyHasData(env, r, obj, sec, k, i);
    }
  }

  lemma CopyHasData(env: Env, r: seq<byte>, obj: nat, sec: nat, k: nat, i: nat)
    requires env.Valid() && IsReloc(env, obj, sec, k, i)
    requires var section := env.objects[obj].sections[sec];
             var m := Home(env.state, section.kind);
             m.va == ObjectBase(section.kind == Text)
             && Keeps(r, SiteOf(env, obj, sec, k, i), Buffer(env, section.kind == Text), m.inputMap[i].mergedOffset + section.relocs[k].offset)
    ensures SiteKept(env, r, obj, sec, k, i)
  {
    var section := env.objects[obj].sections[sec];
    var m := Home(env.state, section.kind);
    CopyHolds(env, obj, sec, i);
    hide Keeps, SiteOf, Home;
    if section.relocs[k].offset + 4 <= |section.data| {
      KeepsThrough(r, SiteOf(env, obj, sec, k, i), m.data, m.inputMap[i].mergedOffset, section.data, section.relocs[k].offset);
    }
  }

  /** The merged buffer has the section's bytes at its copy. */
  lemma CopyHolds(env: Env, obj: nat, sec: nat, i: nat)
    requires env.Valid() && obj < |env.objects| && sec < |env.objects[obj].sections|
    requires SectionCopy(Home(env.state, env.objects[obj].sections[sec].kind), i, obj, sec)
    ensures var section := env.objects[obj].sections[sec];
            var m := Home(env.state, section.kind);
            Lies(m.data, m.inputMap[i].mergedOffset, section.data)
  {
    hide AllSymbols, AllCode, AllData;
    BuildLaysOutSections(env.objects);
    var m := Home(env.state, env.objects[obj].sections[sec].kind);
    assert Copied(m, env.objects, m.inputMap[i]);
  }

  lemma KeepsThrough(r: seq<byte>, site: nat, whole: seq<byte>, start: nat, part: seq<byte>, offset: nat)
    requires Lies(whole, start, part) && Keeps(r, site, whole, start + offset) && offset + 4 <= |part|
    ensures Keeps(r, site, part, offset)
  {
    PartOfSlice(whole, start, |part|, offset, offset + 4);
  }

  /**
   * A relocation against a name: where the name is defined, the word means the last
   * definition, its offset behind the placed copy of its section; where it is only imported,
   * the thunk of its module and ordinal; where it is neither, the section's bytes stay.
   */
  lemma SymbolsMean(env: Env, mem: seq<byte>, r: seq<byte>, obj: nat, sec: nat, k: nat, i: nat, name: string)
    requires Linkable(env) && MEMORY_TOP <= |mem| && LoadedRight(env, mem, r) && IsReloc(env, obj, sec, k, i)
    requires RelocOf(env, obj, sec, k, i).target == Symbol(name) && RelocOf(env, obj, sec, k, i).kind != OtherKind
    ensures forall o, n, c :: LastDefinition(env.objects, env.state, o, n, name) && c >= 0 && CopyOf(env.objects, env.state, o, n, c) ==>
              var va := Sum(env.objects, env.state, o, n, c) % TWO32;
              if va != 0 then Means(r, SiteOf(env, obj, sec, k, i), RelocOf(env, obj, sec, k, i), va)
              else SiteKept(env, r, obj, sec, k, i)
    ensures !IsDefined(env.objects, env.state, name) && name in env.defs ==>
              var (moduleName, ordinal) := env.defs[name];
              BuiltinBase(moduleName).Some?
              && Means(r, SiteOf(env, obj, sec, k, i), RelocOf(env, obj, sec, k, i),
                       0x100_0000 + BuiltinBase(moduleName).value + ordinal)
    ensures !IsDefined(env.objects, env.state, name) && name !in env.defs ==> SiteKept(env, r, obj, sec, k, i)
  {
    hide Linkable, LoadedRight, Means, SiteKept, LastDefinition, IsDefined, BuiltinBase, AllSymbols, AllCode, AllData, Items, CopyOf, Sum;
    LinkableParts(env);
    TableHoldsLastDefinitions(env.objects, name);
    RelocDecides(env, mem, r, obj, sec, k, i);
    if name !in env.state.symbols && name in env.defs {
      ImportIsKnown(env, obj, sec, k, i, name);
    }
  }

  lemma ImportIsKnown(env: Env, obj: nat, sec: nat, k: nat, i: nat, name: string)
    requires env.Valid() && ImportsKnown(env, Items(env)) && IsReloc(env, obj, sec, k, i)
    requires RelocOf(env, obj, sec, k, i).target == Symbol(name) && name !in env.state.symbols && name in env.defs
    ensures BuiltinBase(env.defs[name].0).Some?
    ensures TargetVa(env, Symbol(name)) == 0x100_0000 + BuiltinBase(env.defs[name].0).value + env.defs[name].1
  {
    hide Items, BuiltinBase, AllSymbols, AllCode, AllData;
    var j := RelocIsVisited(env, obj, sec, k, i);
    assert MeaningOf(env, Items(env)[j].reloc.target).Imported?;
  }

  /** A relocation against a section name: the word means the first section of that name, if that was placed. */
  lemma SectionsMean(env: Env, mem: seq<byte>, r: seq<byte>, obj: nat, sec: nat, k: nat, i: nat, o: nat, n: nat)
    requires Linkable(env) && MEMORY_TOP <= |mem| && LoadedRight(env, mem, r) && IsReloc(env, obj, sec, k, i)
    requires RelocOf(env, obj, sec, k, i).kind != OtherKind
    requires o < |env.objects| && n < |env.objects[o].sections| && FirstOfItsName(env.objects, o, n)
    requires RelocOf(env, obj, sec, k, i).target == Section(env.objects[o].sections[n].name)
    ensures var place := Lookup(env.state, o, n);
            if place.Some? then Means(r, SiteOf(env, obj, sec, k, i), RelocOf(env, obj, sec, k, i), place.value)
            else SiteKept(env, r, obj, sec, k, i)
  {
    hide Linkable, LoadedRight, Means, SiteKept, AllSymbols, AllCode, AllData, Items, FindSectionVa, Lookup;
    LinkableParts(env);
    RelocDecides(env, mem, r, obj, sec, k, i);
    var name := env.objects[o].sections[n].name;
    var o', n' := SectionReferences.FoundFirst(env.objects, env.state, name, 0);
    assert Named(env.objects, o, n, name);
    assert o' == o && n' == n by {
      assert o' < |env.objects| ==> Named(env.objects, o', n', name);
    }
    if Lookup(env.state, o, n).Some? {
      PlaceInRange(env, o, n);
    }
  }

  lemma PlaceInRange(env: Env, o: nat, n: nat)
    requires env.Valid() && SizesFit(env.state) && Lookup(env.state, o, n).Some?
    ensures 0 < Lookup(env.state, o, n).value < TWO32
  {
    hide AllSymbols, AllCode, AllData, Lookup;
    MergedBases(env.objects, |env.objects|);
    BuildLaysOutSections(env.objects);
    var isCode, i := LookupFinds(env.state, o, n);
    var m := if isCode then env.state.code else env.state.data;
    assert Copied(m, env.objects, m.inputMap[i]);
  }

  // ----- the entry point -----

  /** The file's entry point is `_start` where it is defined, else `main`, else the start of the code. */
  lemma EntryPointIs(env: Env)
    requires Linkable(env)
    ensures ImageOf(env).Valid() && ImageOf(env).Fits() && Expected(ImageOf(env)).header.Valid()
    ensures Expected(ImageOf(env)).header.EipObject() == 1
    ensures var eip := Expected(ImageOf(env)).header.Eip();
            && (forall o, n, c :: LastDefinition(env.objects, env.state, o, n, "_start") && c >= 0
                                  && CopyOf(env.objects, env.state, o, n, c) ==>
                  eip == (Sum(env.objects, env.state, o, n, c) % TWO32 - 0x1_0000) % TWO32)
            && (!IsDefined(env.objects, env.state, "_start") ==>
                  forall o, n, c :: LastDefinition(env.objects, env.state, o, n, "main") && c >= 0
                                    && CopyOf(env.objects, env.state, o, n, c) ==>
                    eip == (Sum(env.objects, env.state, o, n, c) % TWO32 - 0x1_0000) % TWO32)
            && (!IsDefined(env.objects, env.state, "_start") && !IsDefined(env.objects, env.state, "main") ==> eip == 0)
  {
    hide Linkable, ImageOf, Words, HeaderWords, LastDefinition, IsDefined, CopyOf, Sum, AllSymbols, AllCode, AllData, Get32;
    LinkableParts(env);
    LinkableFits(env);
    HeaderHasFields(ImageOf(env));
    EntryOffsetIs(env);
    TableHoldsLastDefinitions(env.objects, "_start");
    TableHoldsLastDefinitions(env.objects, "main");
  }

  lemma EntryOffsetIs(env: Env)
    ensures ImageOf(env).entryOffset == (env.state.entryVa - CODE_OBJECT_BASE) % TWO32
  {
    hide Fold, Items;
  }
}
