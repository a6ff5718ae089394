/**
 * DLL registration, reference counts and recursive loading (src/loader/managers.rs:309-391,
 * src/loader/lx_loader.rs:155-334) on top of the guest memory allocator.
 */
module Dlls {
  import opened Bytes
  import opened Wrappers
  import opened Allocator

  datatype Dll = Dll(name: string, handle: nat, bases: seq<nat>, refCount: nat)

  /**
   * What opening a DLL file by name finds.  `mapsAt` says whether its pages can be read
   * into memory at given object bases.
   */
  datatype DllFile = Unreadable | DllFile(sizes: seq<u32>, imports: seq<string>, mapsAt: seq<nat> -> bool)

  /** One application of fixups: the importer, and what was known at that moment. */
  datatype Fix = Fix(name: string, imports: seq<string>, registered: set<string>, stack: set<string>, failed: set<string>)

  /**
   * The loader's state.  `loads` and `frees` record the handles of successful loads and
   * frees, `fixes` the applications of fixups; nothing reads them back.
   */
  datatype State = State(
    heap: Heap, dlls: seq<Dll>, nextHandle: nat, loads: multiset<nat>, frees: multiset<nat>, fixes: seq<Fix>)

  const BUILTIN_MODULES: set<string> :=
    {"DOSCALLS", "QUECALLS", "PMWIN", "PMGPI", "KBDCALLS", "VIOCALLS", "SESMGR", "NLS", "MSG", "MDM", "UCONV"}

  function UpperChar(c: char): char {
    if 'a' <= c <= 'z' then (c as int - 32) as char else c
  }

  /** `to_ascii_uppercase`. */
  function Upper(s: string): (u: string)
    ensures |u| == |s|
  {
    seq(|s|, i requires 0 <= i < |s| => UpperChar(s[i]))
  }

  function Names(dlls: seq<Dll>): set<string> {
    set d | d in dlls :: d.name
  }

  function FindByName(dlls: seq<Dll>, name: string): (i: nat)
    ensures i <= |dlls| && (i < |dlls| ==> dlls[i].name == name) && (i == |dlls| ==> name !in Names(dlls))
    ensures forall k :: 0 <= k < i ==> dlls[k].name != name
  {
    if dlls == [] then 0
    else
      var i := FindByName(dlls[..|dlls| - 1], name);
      if i < |dlls| - 1 || dlls[|dlls| - 1].name == name then i else |dlls|
  }

  function FindByHandle(dlls: seq<Dll>, handle: nat): (i: nat)
    ensures i <= |dlls| && (i < |dlls| ==> dlls[i].handle == handle)
    ensures forall k :: 0 <= k < i ==> dlls[k].handle != handle
  {
    if dlls == [] then 0
    else
      var i := FindByHandle(dlls[..|dlls| - 1], handle);
      if i < |dlls| - 1 || dlls[|dlls| - 1].handle == handle then i else |dlls|
  }

  // ----- one load -----

  function AtLeastPage(size: u32): u32 {
    if size < PAGE then PAGE else size
  }

  /** Memory for the first `n` objects; blocks already taken stay taken on failure. */
  function PlaceObjects(h: Heap, limit: nat, sizes: seq<u32>, n: nat): (Heap, Option<seq<nat>>)
    requires n <= |sizes|
  {
    if n == 0 then (h, Some([]))
    else
      var (before, bases) := PlaceObjects(h, limit, sizes, n - 1);
      if bases.None? then (before, None)
      else
        var (after, addr) := Allocated(before, limit, AtLeastPage(sizes[n - 1]));
        (after, if addr.Some? then Some(bases.value + [addr.value]) else None)
  }

  /** `load_dll_impl` for the file found under `name`, with `loading` on the stack. */
  function Load(fs: map<string, DllFile>, limit: nat, st: State, name: string, loading: set<string>): (State, Option<nat>)
    requires name in fs && name !in loading && loading <= fs.Keys
    decreases fs.Keys - loading, 0, 0
  {
    var i := FindByName(st.dlls, name);
    if i < |st.dlls| then
      var d := st.dlls[i];
      (st.(dlls := st.dlls[i := d.(refCount := d.refCount + 1)], loads := st.loads + multiset{d.handle}), Some(d.handle))
    else if fs[name].Unreadable? then (st, None)
    else
      var file := fs[name];
      var (heap, bases) := PlaceObjects(st.heap, limit, file.sizes, |file.sizes|);
      if bases.None? || !file.mapsAt(bases.value) then (st.(heap := heap), None)
      else
        var stack := loading + {name};
        var (deps, failed) := LoadDeps(fs, limit, st.(heap := heap), file.imports, |file.imports|, stack);
        (Registered(deps, name, file.imports, bases.value, stack, failed), Some(deps.nextHandle))
  }

  /** Fixups are applied, then the DLL is entered under a new handle with one reference. */
  function Registered(st: State, name: string, imports: seq<string>, bases: seq<nat>, stack: set<string>, failed: set<string>): State {
    st.(dlls := st.dlls + [Dll(name, st.nextHandle, bases, 1)],
        nextHandle := st.nextHandle + 1,
        loads := st.loads + multiset{st.nextHandle},
        fixes := st.fixes + [Fix(name, imports, Names(st.dlls), stack, failed)])
  }

  /** An import that is neither built in, loaded, nor on the stack must be loaded. */
  predicate Wanted(st: State, dep: string, loading: set<string>) {
    dep !in BUILTIN_MODULES && dep !in Names(st.dlls) && dep !in loading
  }

  /** The loop over the imports; also the imports whose load failed or whose file is missing. */
  function LoadDeps(fs: map<string, DllFile>, limit: nat, st: State, imports: seq<string>, n: nat, loading: set<string>)
    : (State, set<string>)
    requires n <= |imports| && loading <= fs.Keys
    decreases fs.Keys - loading, 1, n
  {
    if n == 0 then (st, {})
    else
      var (before, failed) := LoadDeps(fs, limit, st, imports, n - 1, loading);
      var dep := Upper(imports[n - 1]);
      if !Wanted(before, dep, loading) then (before, failed)
      else if dep !in fs then (before, failed + {dep})
      else
        var (after, handle) := Load(fs, limit, before, dep, loading);
        (after, if handle.Some? then failed else failed + {dep})
  }

  // ----- freeing a module -----

  function FreeAll(h: Heap, bases: seq<nat>): Heap {
    if bases == [] then h else Freed(FreeAll(h, bases[..|bases| - 1]), bases[|bases| - 1]).0
  }

  /** `decrement_refcount`, and freeing the returned bases when the count reaches zero. */
  function FreeModule(st: State, handle: nat): State {
    var i := FindByHandle(st.dlls, handle);
    if i == |st.dlls| then st
    else
      var d := st.dlls[i];
      var counted := st.(frees := st.frees + multiset{handle});
      if d.refCount > 1 then counted.(dlls := st.dlls[i := d.(refCount := d.refCount - 1)])
      else counted.(dlls := Without(st.dlls, i), heap := FreeAll(st.heap, d.bases))
  }

  // ----- the loader itself -----

  class DllLoader {
    const files: map<string, DllFile>
    const mem: MemoryManager
    var dlls: seq<Dll>
    var nextHandle: nat
    ghost var loads: multiset<nat>
    ghost var frees: multiset<nat>
    ghost var fixes: seq<Fix>

    constructor (files: map<string, DllFile>, mem: MemoryManager)
      ensures this.files == files && this.mem == mem
      ensures CurrentState() == State(mem.State(), [], 0x1000, multiset{}, multiset{}, [])
    {
      this.files, this.mem := files, mem;
      dlls, nextHandle, loads, frees, fixes := [], 0x1000, multiset{}, multiset{}, [];
    }

    ghost function CurrentState(): State
      reads this, mem
    {
      State(mem.State(), dlls, nextHandle, loads, frees, fixes)
    }

    method IndexOfName(name: string) returns (i: nat)
      ensures i == FindByName(dlls, name)
    {
      i := 0;
      while i < |dlls| && dlls[i].name != name
        invariant i <= |dlls| && forall k :: 0 <= k < i ==> dlls[k].name != name
      {
        i := i + 1;
      }
      assert FindByName(dlls, name) < |dlls| || i == |dlls| by {
        assert i < |dlls| ==> dlls[i] in dlls;
      }
    }

    method IndexOfHandle(handle: nat) returns (i: nat)
      ensures i == FindByHandle(dlls, handle)
    {
      i := 0;
      while i < |dlls| && dlls[i].handle != handle
        invariant i <= |dlls| && forall k :: 0 <= k < i ==> dlls[k].handle != handle
      {
        i := i + 1;
      }
      HandleAbsent(dlls, handle);
    }

    /** `load_dll`: what a program asks for by name, with nothing on the stack. */
    method LoadDll(name: string) returns (handle: Option<nat>)
      requires name in files
      modifies this, mem
      ensures (CurrentState(), handle) == Load(files, mem.limit, old(CurrentState()), name, {})
    {
      var loading;
      loading, handle := LoadDllImpl(name, {});
    }

    /** `load_dll_impl`; `loading` is the set it updates and hands back. */
    method LoadDllImpl(name: string, loading: set<string>) returns (after: set<string>, handle: Option<nat>)
      requires name in files && name !in loading && loading <= files.Keys
      modifies this, mem
      ensures (CurrentState(), handle) == Load(files, mem.limit, old(CurrentState()), name, loading)
      ensures after == loading
      decreases files.Keys - loading, 0
    {
      hide LoadDeps, PlaceObjects, FindByName, Names;
      var i := IndexOfName(name);
      if i < |dlls| {
        var d := dlls[i];
        dlls, loads := dlls[i := d.(refCount := d.refCount + 1)], loads + multiset{d.handle};
        return loading, Some(d.handle);
      }
      if files[name].Unreadable? {
        return loading, None;
      }
      var file := files[name];
      var bases := AllocObjects(file.sizes);
      if bases.None? || !file.mapsAt(bases.value) {
        return loading, None;
      }
      after := loading + {name};
      assert files.Keys - after < files.Keys - loading by {
        assert name in files.Keys - loading;
      }
      ghost var failed;
      after, failed := LoadImports(file.imports, after);
      fixes := fixes + [Fix(name, file.imports, Names(dlls), after, failed)];
      var newHandle := nextHandle;
      nextHandle := nextHandle + 1;
      dlls := dlls + [Dll(name, newHandle, bases.value, 1)];
      loads := loads + multiset{newHandle};
      after := after - {name};
      handle := Some(newHandle);
    }

    /** Step 3.5 of a load: the imports that are neither built in, loaded, nor being loaded. */
    method LoadImports(imports: seq<string>, loading: set<string>) returns (after: set<string>, ghost failed: set<string>)
      requires loading <= files.Keys
      modifies this, mem
      ensures (CurrentState(), failed) == LoadDeps(files, mem.limit, old(CurrentState()), imports, |imports|, loading)
      ensures after == loading
      decreases files.Keys - loading, 1
    {
      hide Load, LoadDeps, FindByName, Upper, Names;
      after, failed := loading, {};
      var n := 0;
      DepsStart(files, mem.limit, CurrentState(), imports, after);
      while n < |imports|
        invariant n <= |imports| && after == loading
        invariant (CurrentState(), failed) == LoadDeps(files, mem.limit, old(CurrentState()), imports, n, loading)
      {
        var dep := Upper(imports[n]);
        var wanted := false;
        if dep !in BUILTIN_MODULES {
          var found := IndexOfName(dep);
          wanted := found == |dlls| && dep !in after;
          NameAbsent(dlls, dep);
        }
        DepsStep(files, mem.limit, old(CurrentState()), imports, n, loading);
        if wanted {
          if dep in files {
            var got;
            after, got := LoadDllImpl(dep, after);
            failed := if got.Some? then failed else failed + {dep};
          } else {
            failed := failed + {dep};
          }
        }
        n := n + 1;
      }
    }

    /** A block of at least a page for each object, stopping at the first refusal. */
    method AllocObjects(sizes: seq<u32>) returns (bases: Option<seq<nat>>)
      modifies mem
      ensures (mem.State(), bases) == PlaceObjects(old(mem.State()), mem.limit, sizes, |sizes|)
    {
      hide PlaceObjects, Allocated;
      var placed: seq<nat> := [];
      var k := 0;
      PlaceStep(mem.State(), mem.limit, sizes, 0);
      while k < |sizes|
        invariant k <= |sizes|
        invariant (mem.State(), Some(placed)) == PlaceObjects(old(mem.State()), mem.limit, sizes, k)
      {
        var addr := mem.Alloc(AtLeastPage(sizes[k]));
        k := k + 1;
        PlaceStep(old(mem.State()), mem.limit, sizes, k);
        if addr.None? {
          RefusedStays(old(mem.State()), mem.limit, sizes, k, |sizes|);
          return None;
        }
        placed := placed + [addr.value];
      }
      return Some(placed);
    }

    /** `DosFreeModule` with the blocks freed when the last reference goes. */
    method FreeModuleByHandle(handle: nat)
      modifies this, mem
      ensures CurrentState() == FreeModule(old(CurrentState()), handle)
    {
      var i := IndexOfHandle(handle);
      if i == |dlls| {
        return;
      }
      var d := dlls[i];
      frees := frees + multiset{handle};
      if d.refCount > 1 {
        dlls := dlls[i := d.(refCount := d.refCount - 1)];
        return;
      }
      dlls := Without(dlls, i);
      ghost var counted := CurrentState();
      var k := 0;
      while k < |d.bases|
        invariant k <= |d.bases|
        invariant CurrentState() == counted.(heap := FreeAll(counted.heap, d.bases[..k]))
      {
        assert d.bases[..k + 1][..k] == d.bases[..k];
        var found := mem.Free(d.bases[k]);
        k := k + 1;
      }
      assert d.bases[..k] == d.bases;
    }
  }

  lemma HandleAbsent(dlls: seq<Dll>, handle: nat)
    ensures FindByHandle(dlls, handle) == |dlls| <==> forall k :: 0 <= k < |dlls| ==> dlls[k].handle != handle
  {
  }

  lemma NameAbsent(dlls: seq<Dll>, name: string)
    ensures FindByName(dlls, name) < |dlls| <==> name in Names(dlls)
  {
    var i := FindByName(dlls, name);
    assert i < |dlls| ==> dlls[i] in dlls;
  }

  lemma PlaceStep(h: Heap, limit: nat, sizes: seq<u32>, n: nat)
    requires n <= |sizes|
    ensures PlaceObjects(h, limit, sizes, n) ==
            if n == 0 then (h, Some([]))
            else
              var (before, bases) := PlaceObjects(h, limit, sizes, n - 1);
              if bases.None? then (before, None)
              else
                var (after, addr) := Allocated(before, limit, AtLeastPage(sizes[n - 1]));
                (after, if addr.Some? then Some(bases.value + [addr.value]) else None)
  {
  }

  lemma DepsStart(fs: map<string, DllFile>, limit: nat, st: State, imports: seq<string>, loading: set<string>)
    requires loading <= fs.Keys
    ensures LoadDeps(fs, limit, st, imports, 0, loading) == (st, {})
  {
  }

  lemma DepsStep(fs: map<string, DllFile>, limit: nat, st: State, imports: seq<string>, n: nat, loading: set<string>)
    requires n < |imports| && loading <= fs.Keys
    ensures LoadDeps(fs, limit, st, imports, n + 1, loading) ==
            var (before, failed) := LoadDeps(fs, limit, st, imports, n, loading);
            var dep := Upper(imports[n]);
            if !Wanted(before, dep, loading) then (before, failed)
            else if dep !in fs then (before, failed + {dep})
            else
              var (after, handle) := Load(fs, limit, before, dep, loading);
              (after, if handle.Some? then failed else failed + {dep})
  {
    hide Load, Upper, Names;
  }

  lemma {:induction false} RefusedStays(h: Heap, limit: nat, sizes: seq<u32>, k: nat, n: nat)
    requires k <= n <= |sizes| && PlaceObjects(h, limit, sizes, k).1.None?
    ensures PlaceObjects(h, limit, sizes, n) == PlaceObjects(h, limit, sizes, k)
  {
    hide Allocated;
    if k < n {
      RefusedStays(h, limit, sizes, k, n - 1);
    }
  }
}
