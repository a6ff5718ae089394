/**
 * Which loads succeed (src/loader/lx_loader.rs:167-321): what a file and the heap allow, and
 * nothing else.  Imports that cannot be loaded do not make their importer fail.
 */
module DllLoads {
  import opened Bytes
  import opened Wrappers
  import opened Allocator
  import opened Dlls
  import opened DllNames
  import opened DllProperties

  // ----- memory for the objects -----

  /** Whole pages for an object, one at least. */
  function PagesFor(size: u32): nat {
    if size <= 4096 then 4096 else (size + 4095) / 4096 * 4096
  }

  function TotalFor(sizes: seq<u32>, n: nat): nat
    requires n <= |sizes|
  {
    if n == 0 then 0 else TotalFor(sizes, n - 1) + PagesFor(sizes[n - 1])
  }

  lemma OneObjectFits(h: Heap, limit: nat, size: u32)
    requires limit < TWO32 && h.next + PagesFor(size) <= limit
    ensures var (after, addr) := Allocated(h, limit, AtLeastPage(size)); addr.Some? && after.next <= h.next + PagesFor(size)
  {
    hide FirstFit;
  }

  /** Room above the heap for all objects is enough, whatever is free below. */
  lemma {:induction false} RoomIsEnough(h: Heap, limit: nat, sizes: seq<u32>, n: nat)
    requires limit < TWO32 && n <= |sizes| && h.next + TotalFor(sizes, n) <= limit
    ensures var (after, bases) := PlaceObjects(h, limit, sizes, n);
            bases.Some? && |bases.value| == n && after.next <= h.next + TotalFor(sizes, n)
  {
    hide Allocated, AtLeastPage, PagesFor;
    if n > 0 {
      RoomIsEnough(h, limit, sizes, n - 1);
      OneObjectFits(PlaceObjects(h, limit, sizes, n - 1).0, limit, sizes[n - 1]);
    }
  }

  // ----- loads -----

  /** The file is there, its objects get memory, and its pages can be read into it. */
  predicate CanLoad(fs: map<string, DllFile>, limit: nat, heap: Heap, name: string) {
    && name in fs && fs[name].DllFile?
    && var bases := PlaceObjects(heap, limit, fs[name].sizes, |fs[name].sizes|).1;
       bases.Some? && fs[name].mapsAt(bases.value)
  }

  /** The load returned the handle of a DLL of that name. */
  predicate Gave(st: State, handle: Option<nat>, name: string) {
    handle.Some? && exists d :: d in st.dlls && d.name == name && d.handle == handle.value
  }

  /** A load fails exactly if the name is not registered and its own file cannot be loaded; then no DLL is added or counted. */
  lemma LoadSucceedsIff(fs: map<string, DllFile>, limit: nat, st: State, name: string, loading: set<string>)
    requires Stacked(fs, st, loading) && name in fs && name !in loading
    ensures var (after, handle) := Load(fs, limit, st, name, loading);
            if name in Names(st.dlls) || CanLoad(fs, limit, st.heap, name) then Gave(after, handle, name)
            else
              && handle == None && after.dlls == st.dlls && after.nextHandle == st.nextHandle
              && after.loads == st.loads && after.fixes == st.fixes
  {
    hide LoadDeps, PlaceObjects, FixOk, Names;
    var (after, handle) := Load(fs, limit, st, name, loading);
    NameAbsent(st.dlls, name);
    if name in Names(st.dlls) {
      var i := FindByName(st.dlls, name);
      assert after.dlls[i] in after.dlls;
    } else {
      LoadNames(fs, limit, st, name, loading);
      if handle.Some? {
        assert after.dlls != [] by {
          OwnNameIn(after.dlls, name);
        }
        assert after.dlls[|after.dlls| - 1] in after.dlls;
      }
    }
  }

  lemma OwnNameIn(dlls: seq<Dll>, name: string)
    requires name in Names(dlls)
    ensures dlls != []
  {
  }

  /** An import that counts as failed has no file, or one that could not be loaded at that moment. */
  ghost predicate FailedFor(fs: map<string, DllFile>, limit: nat, dep: string) {
    dep !in fs || exists heap :: !CanLoad(fs, limit, heap, dep)
  }

  ghost predicate FailuresAreReal(fs: map<string, DllFile>, limit: nat, st: State, st': State) {
    st.fixes <= st'.fixes
    && forall i, dep :: |st.fixes| <= i < |st'.fixes| && dep in st'.fixes[i].failed ==> FailedFor(fs, limit, dep)
  }

  lemma RealTrans(fs: map<string, DllFile>, limit: nat, a: State, b: State, c: State)
    requires FailuresAreReal(fs, limit, a, b) && FailuresAreReal(fs, limit, b, c)
    ensures FailuresAreReal(fs, limit, a, c)
  {
    forall i, dep | |a.fixes| <= i < |c.fixes| && dep in c.fixes[i].failed
      ensures FailedFor(fs, limit, dep)
    {
      if i < |b.fixes| {
        assert b.fixes[i] == c.fixes[i];
      }
    }
  }

  lemma {:induction false} LoadFailures(fs: map<string, DllFile>, limit: nat, st: State, name: string, loading: set<string>)
    requires Stacked(fs, st, loading) && name in fs && name !in loading
    ensures FailuresAreReal(fs, limit, st, Load(fs, limit, st, name, loading).0)
    decreases fs.Keys - loading, 0, 0
  {
    hide PlaceObjects, FailedFor, LoadDeps;
    NameAbsent(st.dlls, name);
    var file := fs[name];
    if name !in Names(st.dlls) && file.DllFile? {
      var (heap, bases) := PlaceObjects(st.heap, limit, file.sizes, |file.sizes|);
      if bases.Some? && file.mapsAt(bases.value) {
        var stack, placed := loading + {name}, st.(heap := heap);
        assert fs.Keys - stack < fs.Keys - loading by {
          assert name in fs.Keys - loading;
        }
        DepFailures(fs, limit, placed, file.imports, |file.imports|, stack);
      }
    }
  }

  lemma {:induction false} DepFailures(fs: map<string, DllFile>, limit: nat, st: State, imports: seq<string>, n: nat, loading: set<string>)
    requires Stacked(fs, st, loading) && n <= |imports|
    ensures var (st', failed) := LoadDeps(fs, limit, st, imports, n, loading);
            && FailuresAreReal(fs, limit, st, st')
            && (forall dep :: dep in failed ==> FailedFor(fs, limit, dep))
    decreases fs.Keys - loading, 1, n
  {
    hide Names, Load, Upper, FailedFor, CanLoad, FixOk;
    if n > 0 {
      DepFailures(fs, limit, st, imports, n - 1, loading);
      DepsNames(fs, limit, st, imports, n - 1, loading);
      var (before, failed) := LoadDeps(fs, limit, st, imports, n - 1, loading);
      NamesGrow(st, before, loading);
      var dep := Upper(imports[n - 1]);
      if Wanted(before, dep, loading) {
        if dep in fs {
          LoadFailures(fs, limit, before, dep, loading);
          RealTrans(fs, limit, st, before, Load(fs, limit, before, dep, loading).0);
          LoadSucceedsIff(fs, limit, before, dep, loading);
          CouldNotLoad(fs, limit, before.heap, dep);
        } else {
          NoFile(fs, limit, dep);
        }
      }
    }
  }

  lemma CouldNotLoad(fs: map<string, DllFile>, limit: nat, heap: Heap, dep: string)
    ensures !CanLoad(fs, limit, heap, dep) ==> FailedFor(fs, limit, dep)
  {
  }

  lemma NoFile(fs: map<string, DllFile>, limit: nat, dep: string)
    requires dep !in fs
    ensures FailedFor(fs, limit, dep)
  {
  }

  ghost predicate AllReal(fs: map<string, DllFile>, limit: nat, fixes: seq<Fix>) {
    forall i, dep :: 0 <= i < |fixes| && dep in fixes[i].failed ==> FailedFor(fs, limit, dep)
  }

  lemma StillReal(fs: map<string, DllFile>, limit: nat, st: State, st': State)
    requires AllReal(fs, limit, st.fixes) && FailuresAreReal(fs, limit, st, st')
    ensures AllReal(fs, limit, st'.fixes)
  {
    forall i, dep | 0 <= i < |st'.fixes| && dep in st'.fixes[i].failed
      ensures FailedFor(fs, limit, dep)
    {
      if i < |st.fixes| {
        assert dep in st.fixes[i].failed;
      }
    }
  }

  /** In any run, imports that count as failed when fixups are applied could not be loaded. */
  lemma {:induction false} FailedImportsFailed(fs: map<string, DllFile>, base: nat, limit: nat, calls: seq<Call>)
    ensures AllReal(fs, limit, RunCalls(fs, base, limit, calls).fixes)
  {
    hide Load, FreeModule, AllReal, FailuresAreReal, Upper, Stacked;
    if calls == [] {
      NothingReal(fs, limit);
    } else {
      var st := RunCalls(fs, base, limit, calls[..|calls| - 1]);
      FailedImportsFailed(fs, base, limit, calls[..|calls| - 1]);
      match calls[|calls| - 1]
      case LoadModule(name) =>
        if Upper(name) in fs {
          NothingStacked(fs, st);
          LoadFailures(fs, limit, st, Upper(name), {});
          StillReal(fs, limit, st, Load(fs, limit, st, Upper(name), {}).0);
        }
      case UnloadModule(handle) =>
        FreesFixNothing(st, handle);
      case _ =>
    }
  }

  lemma NothingReal(fs: map<string, DllFile>, limit: nat)
    ensures AllReal(fs, limit, [])
  {
  }

  lemma NothingStacked(fs: map<string, DllFile>, st: State)
    ensures Stacked(fs, st, {})
  {
  }

  lemma FreesFixNothing(st: State, handle: nat)
    ensures FreeModule(st, handle).fixes == st.fixes
  {
  }
}
