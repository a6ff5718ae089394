/**
 * The exports of a loaded DLL (src/loader/lx_loader.rs:261-281) and what imports of them
 * become (src/loader/managers.rs:351-359, src/loader/descriptors.rs:104-110).
 */
module DllExports {
  import opened Bytes
  import opened Wrappers
  import opened LxFormat
  import opened Imports
  import opened LxLoader
  import opened Rebase
  import opened LoadedFiles
  import opened LxEncoding
  import opened LxFiles
  import Dlls
  import P = LxParser

  // ----- by ordinal -----

  /** Export `i` has that ordinal, and an object that was loaded. */
  predicate Exported(exports: seq<Export>, bases: seq<u32>, i: nat, ordinal: nat) {
    i < |exports| && exports[i].ordinal == ordinal && 1 <= exports[i].objectNum <= |bases|
  }

  function ExportAddress(exports: seq<Export>, bases: seq<u32>, i: nat): u32
    requires i < |exports| && 1 <= exports[i].objectNum <= |bases|
  {
    (bases[exports[i].objectNum - 1] + exports[i].offset) % TWO32
  }

  /** The last of the first `n` exports with that ordinal. */
  predicate LastExport(exports: seq<Export>, bases: seq<u32>, n: nat, i: nat, ordinal: nat) {
    i < n && Exported(exports, bases, i, ordinal) && forall j :: i < j < n ==> !Exported(exports, bases, j, ordinal)
  }

  /** The map has the ordinals of the first `n` exports, each with the address of the last of them. */
  ghost predicate HoldsOrdinals(byOrdinal: map<nat, u32>, exports: seq<Export>, bases: seq<u32>, n: nat) {
    && (forall i, ordinal :: 0 <= i < n && Exported(exports, bases, i, ordinal) ==> ordinal in byOrdinal)
    && (forall ordinal :: ordinal in byOrdinal ==>
          exists i: nat :: LastExport(exports, bases, n, i, ordinal) && byOrdinal[ordinal] == ExportAddress(exports, bases, i))
  }

  method ExportsByOrdinal(exports: seq<Export>, bases: seq<u32>) returns (byOrdinal: map<nat, u32>)
    ensures HoldsOrdinals(byOrdinal, exports, bases, |exports|)
  {
    byOrdinal := map[];
    for n := 0 to |exports|
      invariant HoldsOrdinals(byOrdinal, exports, bases, n)
    {
      ghost var before := byOrdinal;
      var e := exports[n];
      if 1 <= e.objectNum <= |bases| {
        byOrdinal := byOrdinal[e.ordinal := (bases[e.objectNum - 1] + e.offset) % TWO32];
        EnterExport(before, exports, bases, n);
      } else {
        SkipExport(before, exports, bases, n);
      }
    }
  }

  lemma EnterExport(before: map<nat, u32>, exports: seq<Export>, bases: seq<u32>, n: nat)
    requires n < |exports| && 1 <= exports[n].objectNum <= |bases| && HoldsOrdinals(before, exports, bases, n)
    ensures HoldsOrdinals(before[exports[n].ordinal := ExportAddress(exports, bases, n)], exports, bases, n + 1)
  {
    var after := before[exports[n].ordinal := ExportAddress(exports, bases, n)];
    forall ordinal | ordinal in after
      ensures exists i: nat :: LastExport(exports, bases, n + 1, i, ordinal) && after[ordinal] == ExportAddress(exports, bases, i)
    {
      if ordinal == exports[n].ordinal {
        assert LastExport(exports, bases, n + 1, n, ordinal);
      } else {
        var i: nat :| LastExport(exports, bases, n, i, ordinal) && before[ordinal] == ExportAddress(exports, bases, i);
        assert LastExport(exports, bases, n + 1, i, ordinal);
      }
    }
  }

  lemma SkipExport(before: map<nat, u32>, exports: seq<Export>, bases: seq<u32>, n: nat)
    requires n < |exports| && !(1 <= exports[n].objectNum <= |bases|) && HoldsOrdinals(before, exports, bases, n)
    ensures HoldsOrdinals(before, exports, bases, n + 1)
  {
    forall ordinal | ordinal in before
      ensures exists i: nat :: LastExport(exports, bases, n + 1, i, ordinal) && before[ordinal] == ExportAddress(exports, bases, i)
    {
      var i: nat :| LastExport(exports, bases, n, i, ordinal) && before[ordinal] == ExportAddress(exports, bases, i);
      assert LastExport(exports, bases, n + 1, i, ordinal);
    }
  }

  // ----- by name -----

  /** Name `i` is that one in upper case, and its ordinal is exported. */
  predicate Named(names: seq<(u16, string)>, byOrdinal: map<nat, u32>, i: nat, name: string) {
    i < |names| && Dlls.Upper(names[i].1) == name && names[i].0 in byOrdinal
  }

  predicate LastNamed(names: seq<(u16, string)>, byOrdinal: map<nat, u32>, n: nat, i: nat, name: string) {
    i < n && Named(names, byOrdinal, i, name) && forall j :: i < j < n ==> !Named(names, byOrdinal, j, name)
  }

  ghost predicate HoldsNames(byName: map<string, u32>, names: seq<(u16, string)>, byOrdinal: map<nat, u32>, n: nat) {
    && (forall i, name :: 0 <= i < n && Named(names, byOrdinal, i, name) ==> name in byName)
    && (forall name :: name in byName ==>
          exists i: nat :: LastNamed(names, byOrdinal, n, i, name) && byName[name] == byOrdinal[names[i].0])
  }

  method ExportsByName(names: seq<(u16, string)>, byOrdinal: map<nat, u32>) returns (byName: map<string, u32>)
    ensures HoldsNames(byName, names, byOrdinal, |names|)
  {
    hide Dlls.Upper;
    byName := map[];
    for n := 0 to |names|
      invariant HoldsNames(byName, names, byOrdinal, n)
    {
      ghost var before := byName;
      var (ordinal, name) := names[n];
      if ordinal in byOrdinal {
        byName := byName[Dlls.Upper(name) := byOrdinal[ordinal]];
        EnterName(before, names, byOrdinal, n);
      } else {
        SkipName(before, names, byOrdinal, n);
      }
    }
  }

  lemma EnterName(before: map<string, u32>, names: seq<(u16, string)>, byOrdinal: map<nat, u32>, n: nat)
    requires n < |names| && names[n].0 in byOrdinal && HoldsNames(before, names, byOrdinal, n)
    ensures HoldsNames(before[Dlls.Upper(names[n].1) := byOrdinal[names[n].0]], names, byOrdinal, n + 1)
  {
    hide Dlls.Upper;
    var after := before[Dlls.Upper(names[n].1) := byOrdinal[names[n].0]];
    forall name | name in after
      ensures exists i: nat :: LastNamed(names, byOrdinal, n + 1, i, name) && after[name] == byOrdinal[names[i].0]
    {
      if name == Dlls.Upper(names[n].1) {
        assert LastNamed(names, byOrdinal, n + 1, n, name);
      } else {
        var i: nat :| LastNamed(names, byOrdinal, n, i, name) && before[name] == byOrdinal[names[i].0];
        assert LastNamed(names, byOrdinal, n + 1, i, name);
      }
    }
  }

  lemma SkipName(before: map<string, u32>, names: seq<(u16, string)>, byOrdinal: map<nat, u32>, n: nat)
    requires n < |names| && names[n].0 !in byOrdinal && HoldsNames(before, names, byOrdinal, n)
    ensures HoldsNames(before, names, byOrdinal, n + 1)
  {
    hide Dlls.Upper;
    forall name | name in before
      ensures exists i: nat :: LastNamed(names, byOrdinal, n + 1, i, name) && before[name] == byOrdinal[names[i].0]
    {
      var i: nat :| LastNamed(names, byOrdinal, n, i, name) && before[name] == byOrdinal[names[i].0];
      assert LastNamed(names, byOrdinal, n + 1, i, name);
    }
  }

  // ----- imports reach the slots of a DLL file -----

  /** The exports of a DLL are found under its upper-case name. */
  predicate Registers(symbols: Symbols, dll: string, byOrdinal: map<nat, u32>) {
    dll in symbols.dlls
    && forall ordinal: u32 :: (ordinal in symbols.dlls[dll] <==> ordinal in byOrdinal)
                              && (ordinal in byOrdinal ==> symbols.dlls[dll][ordinal] == byOrdinal[ordinal])
  }

  /** In the map of a DLL file's exports, a slot's ordinal has the slot's offset in the slot's object. */
  lemma SlotHasAddress(bundles: seq<Bundle>, bases: seq<u32>, byOrdinal: map<nat, u32>, i: nat, k: nat)
    requires IsSlot(bundles, i, k) && 1 <= bundles[i].objectNum <= |bases|
    requires HoldsOrdinals(byOrdinal, Exports(bundles, 1), bases, |Exports(bundles, 1)|)
    ensures var ordinal := 1 + OrdinalsBefore(bundles, i) + k;
            && ordinal in byOrdinal
            && byOrdinal[ordinal] == (bases[bundles[i].objectNum - 1] + bundles[i].slots32[k].1) % TWO32
  {
    hide Exports, OrdinalsBefore;
    var exports := Exports(bundles, 1);
    var e := ExportOf(bundles, i, k, 1);
    SlotIsExported(bundles, 1, i, k);
    ExportsAscend(bundles, 1);
    var j :| 0 <= j < |exports| && exports[j] == e;
    assert Exported(exports, bases, j, e.ordinal);
    var last: nat :| LastExport(exports, bases, |exports|, last, e.ordinal) && byOrdinal[e.ordinal] == ExportAddress(exports, bases, last);
    assert last == j by {
      assert exports[last].ordinal == exports[j].ordinal;
    }
  }

  /** Ordinals that no 32-bit slot of a loaded object has are not exported. */
  lemma OthersHaveNone(bundles: seq<Bundle>, bases: seq<u32>, byOrdinal: map<nat, u32>, ordinal: nat)
    requires HoldsOrdinals(byOrdinal, Exports(bundles, 1), bases, |Exports(bundles, 1)|) && ordinal in byOrdinal
    ensures exists i: nat, k: nat :: IsSlot(bundles, i, k) && 1 <= bundles[i].objectNum <= |bases|
                                     && ordinal == 1 + OrdinalsBefore(bundles, i) + k
  {
    hide Exports, OrdinalsBefore;
    var exports := Exports(bundles, 1);
    var last: nat :| LastExport(exports, bases, |exports|, last, ordinal) && byOrdinal[ordinal] == ExportAddress(exports, bases, last);
    var i, k := ExportIsSlot(bundles, 1, exports[last]);
  }

  /**
   * From one file to another: where a file imports an ordinal of a DLL, its loaded memory
   * points to the offset that the slot of that ordinal has in the DLL's own file, in the
   * DLL's object where that was loaded.
   */
  lemma ImportsReachSlots(dllFile: seq<byte>, at: nat, c: Contents, dll: LxFile, dllBases: seq<u32>, byOrdinal: map<nat, u32>, i: nat, k: nat,
                          now: seq<byte>, was: seq<byte>, lx: LxFile, file: seq<byte>, symbols: Symbols,
                          bases: seq<u32>, lens: seq<nat>, s: Site)
    requires HoldsContents(dllFile, at, c) && IsSlot(c.bundles, i, k) && 1 <= c.bundles[i].objectNum <= |dllBases|
    requires P.ParseSpec(dllFile) == Ok(dll) && HoldsOrdinals(byOrdinal, dll.exports, dllBases, |dll.exports|)
    requires LoadedAt(now, was, lx, file, symbols, bases, lens) && s in Sites(lx) && SiteSize(s.sourceType) > 0
    requires s.target.ExternalOrdinal? && s.target.procOrdinal == 1 + OrdinalsBefore(c.bundles, i) + k
    requires var name := ModuleAt(lx, s.target.moduleOrdinal);
             (forall m: nat :: !IsBuiltIn(m, name)) && Registers(symbols, Dlls.Upper(name), byOrdinal)
    ensures var address := (dllBases[c.bundles[i].objectNum - 1] + c.bundles[i].slots32[k].1) % TWO32;
            address > 0 ==>
              && s.obj < |bases| && bases[s.obj] + s.rel + SiteSize(s.sourceType) <= |now|
              && PointsTo(now, s.sourceType, bases[s.obj] + s.rel, address)
  {
    hide P.ParseSpec, HoldsContents, LoadedAt, Exports, OrdinalsBefore, HoldsOrdinals, PointsTo, Sites, IsBuiltIn, Dlls.Upper;
    ParsesAnyFile(dllFile, at, c);
    SlotHasAddress(c.bundles, dllBases, byOrdinal, i, k);
    var address := (dllBases[c.bundles[i].objectNum - 1] + c.bundles[i].slots32[k].1) % TWO32;
    if address > 0 {
      var name := ModuleAt(lx, s.target.moduleOrdinal);
      assert ImportIsAt(symbols, name, s.target.procOrdinal, address);
      SitesPoint(now, was, lx, file, symbols, bases, lens, s, address);
    }
  }
}
