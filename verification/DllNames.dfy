/**
 * Which names a load registers, and what is known of the imports when fixups are applied
 * (src/loader/lx_loader.rs:167-321).  None of this depends on memory.
 */
module DllNames {
  import opened Bytes
  import opened Wrappers
  import opened Allocator
  import opened Dlls

  /** The imports of `e` at that moment: built in, registered, on the stack, or failed. */
  predicate FixOk(e: Fix) {
    && e.name in e.stack && e.stack !! e.registered
    && forall k :: 0 <= k < |e.imports| ==>
         var dep := Upper(e.imports[k]);
         dep in BUILTIN_MODULES || dep in e.registered || dep in e.stack || dep in e.failed
  }

  /** DLLs off the stack are added, and every application of fixups finds its imports so. */
  predicate NamesExtend(st: State, st': State, loading: set<string>) {
    && st.dlls <= st'.dlls
    && (forall i :: |st.dlls| <= i < |st'.dlls| ==> st'.dlls[i].name !in loading)
    && st.fixes <= st'.fixes
    && (forall i :: |st.fixes| <= i < |st'.fixes| ==> FixOk(st'.fixes[i]))
  }

  lemma NamesTrans(a: State, b: State, c: State, loading: set<string>)
    requires NamesExtend(a, b, loading) && NamesExtend(b, c, loading)
    ensures NamesExtend(a, c, loading)
  {
    hide FixOk;
    forall i | |a.dlls| <= i < |c.dlls|
      ensures c.dlls[i].name !in loading
    {
      if i < |b.dlls| {
        assert b.dlls[i] == c.dlls[i];
      }
    }
    forall i | |a.fixes| <= i < |c.fixes|
      ensures FixOk(c.fixes[i])
    {
      if i < |b.fixes| {
        assert b.fixes[i] == c.fixes[i];
      }
    }
  }

  lemma NamesGrow(st: State, st': State, loading: set<string>)
    requires NamesExtend(st, st', loading)
    ensures Names(st.dlls) <= Names(st'.dlls)
    ensures loading !! Names(st.dlls) ==> loading !! Names(st'.dlls)
  {
    forall name | name in Names(st.dlls)
      ensures name in Names(st'.dlls)
    {
      var d :| d in st.dlls && d.name == name;
      var i :| 0 <= i < |st.dlls| && st.dlls[i] == d;
      assert st'.dlls[i] == d;
    }
    forall name | name in Names(st'.dlls) && name in loading
      ensures name in Names(st.dlls)
    {
      var d :| d in st'.dlls && d.name == name;
      var i :| 0 <= i < |st'.dlls| && st'.dlls[i] == d;
      assert i < |st.dlls|;
      assert st.dlls[i] == d;
    }
  }

  /** The stack holds names of files that are not registered. */
  predicate Stacked(fs: map<string, DllFile>, st: State, loading: set<string>) {
    loading <= fs.Keys && loading !! Names(st.dlls)
  }

  lemma NotFound(dlls: seq<Dll>, name: string)
    requires name !in Names(dlls)
    ensures FindByName(dlls, name) == |dlls|
  {
    assert forall i :: 0 <= i < |dlls| ==> dlls[i] in dlls;
  }

  /**
   * Loading a name that is not yet registered registers no name on the stack, and registers
   * its own name, last, exactly when it succeeds.
   */
  lemma {:induction false} LoadNames(fs: map<string, DllFile>, limit: nat, st: State, name: string, loading: set<string>)
    requires Stacked(fs, st, loading) && name in fs && name !in loading && name !in Names(st.dlls)
    ensures var (st', handle) := Load(fs, limit, st, name, loading);
            && NamesExtend(st, st', loading)
            && (handle.Some? <==> name in Names(st'.dlls))
            && (handle.Some? ==> handle.value == st'.dlls[|st'.dlls| - 1].handle && st'.dlls[|st'.dlls| - 1].name == name)
    decreases fs.Keys - loading, 0, 0
  {
    hide PlaceObjects, FixOk, LoadDeps, Names;
    NotFound(st.dlls, name);
    var file := fs[name];
    if file.DllFile? {
      var (heap, bases) := PlaceObjects(st.heap, limit, file.sizes, |file.sizes|);
      if bases.Some? && file.mapsAt(bases.value) {
        var stack, placed := loading + {name}, st.(heap := heap);
        assert fs.Keys - stack < fs.Keys - loading by {
          assert name in fs.Keys - loading;
        }
        DepsNames(fs, limit, placed, file.imports, |file.imports|, stack);
        var (deps, failed) := LoadDeps(fs, limit, placed, file.imports, |file.imports|, stack);
        NamesGrow(placed, deps, stack);
        RegisterNames(st, deps, name, file.imports, bases.value, stack, failed, loading);
      }
    }
  }

  /** Loading a registered name applies no fixups. */
  lemma RegisteredNeedsNoFixups(fs: map<string, DllFile>, limit: nat, st: State, name: string)
    requires name in fs && name in Names(st.dlls)
    ensures Load(fs, limit, st, name, {}).0.fixes == st.fixes
  {
    hide LoadDeps;
  }

  /** After the imports, the importer itself is added. */
  lemma RegisterNames(st: State, deps: State, name: string, imports: seq<string>, bases: seq<nat>,
                      stack: set<string>, failed: set<string>, loading: set<string>)
    requires NamesExtend(st, deps, stack) && loading <= stack && name in stack && name !in loading
    requires stack !! Names(deps.dlls)
    requires forall k :: 0 <= k < |imports| ==>
               var dep := Upper(imports[k]);
               dep in BUILTIN_MODULES || dep in Names(deps.dlls) || dep in stack || dep in failed
    ensures var r := Registered(deps, name, imports, bases, stack, failed);
            && NamesExtend(st, r, loading) && name in Names(r.dlls)
            && r.dlls[|r.dlls| - 1].name == name && r.dlls[|r.dlls| - 1].handle == deps.nextHandle
  {
    var r := Registered(deps, name, imports, bases, stack, failed);
    assert r.dlls[..|deps.dlls|] == deps.dlls;
    assert FixOk(r.fixes[|deps.fixes|]);
    assert r.dlls[|r.dlls| - 1] in r.dlls;
    forall i | |st.dlls| <= i < |r.dlls|
      ensures r.dlls[i].name !in loading
    {
      if i < |deps.dlls| {
        assert r.dlls[i] == deps.dlls[i];
      }
    }
  }

  /** The loop over the imports leaves each of them built in, registered, on the stack, or failed. */
  lemma {:induction false} DepsNames(fs: map<string, DllFile>, limit: nat, st: State, imports: seq<string>, n: nat, loading: set<string>)
    requires Stacked(fs, st, loading) && n <= |imports|
    ensures var (st', failed) := LoadDeps(fs, limit, st, imports, n, loading);
            && NamesExtend(st, st', loading)
            && forall k :: 0 <= k < n ==>
                 var dep := Upper(imports[k]);
                 dep in BUILTIN_MODULES || dep in Names(st'.dlls) || dep in loading || dep in failed
    decreases fs.Keys - loading, 1, n
  {
    hide FixOk, Names, Load, Upper;
    if n > 0 {
      DepsNames(fs, limit, st, imports, n - 1, loading);
      var (before, failed) := LoadDeps(fs, limit, st, imports, n - 1, loading);
      NamesGrow(st, before, loading);
      var dep := Upper(imports[n - 1]);
      if Wanted(before, dep, loading) && dep in fs {
        LoadNames(fs, limit, before, dep, loading);
        var after := Load(fs, limit, before, dep, loading).0;
        NamesTrans(st, before, after, loading);
        NamesGrow(before, after, loading);
      }
    }
  }
}
