/**
 * Which imports are resolved when an importer's fixups are applied: all of them when the
 * import graph has no cycle, and otherwise all but those on the loading stack.
 */
module ImportOrder {
  import opened Bytes
  import opened Wrappers
  import opened Allocator
  import opened Dlls
  import opened DllNames
  import opened DllProperties

  /** Every import of a file that is itself a file has a smaller rank. */
  ghost predicate Acyclic(fs: map<string, DllFile>, rank: string -> nat) {
    forall name, k :: name in fs && fs[name].DllFile? && 0 <= k < |fs[name].imports| && Upper(fs[name].imports[k]) in fs ==>
      rank(Upper(fs[name].imports[k])) < rank(name)
  }

  /** The fixups are those of a file, applied while only importers of it, direct or not, are on the stack. */
  predicate Placed(fs: map<string, DllFile>, rank: string -> nat, e: Fix) {
    && e.name in fs && fs[e.name].DllFile? && e.imports == fs[e.name].imports
    && forall s :: s in e.stack ==> s in fs && rank(s) >= rank(e.name)
  }

  ghost predicate NewFixesPlaced(fs: map<string, DllFile>, rank: string -> nat, st: State, st': State) {
    st.fixes <= st'.fixes && forall i :: |st.fixes| <= i < |st'.fixes| ==> Placed(fs, rank, st'.fixes[i])
  }

  lemma PlacedTrans(fs: map<string, DllFile>, rank: string -> nat, a: State, b: State, c: State)
    requires NewFixesPlaced(fs, rank, a, b) && NewFixesPlaced(fs, rank, b, c)
    ensures NewFixesPlaced(fs, rank, a, c)
  {
    forall i | |a.fixes| <= i < |c.fixes|
      ensures Placed(fs, rank, c.fixes[i])
    {
      if i < |b.fixes| {
        assert b.fixes[i] == c.fixes[i];
      }
    }
  }

  predicate Above(loading: set<string>, rank: string -> nat, bound: nat) {
    forall s :: s in loading ==> rank(s) >= bound
  }

  /** While `name` is loaded, only names of larger rank are on the stack. */
  lemma {:induction false} LoadRanks(fs: map<string, DllFile>, rank: string -> nat, limit: nat, st: State, name: string, loading: set<string>)
    requires Acyclic(fs, rank) && name in fs && name !in loading && loading <= fs.Keys
    requires Above(loading, rank, rank(name))
    ensures NewFixesPlaced(fs, rank, st, Load(fs, limit, st, name, loading).0)
    decreases fs.Keys - loading, 0, 0
  {
    hide PlaceObjects, FindByName, Upper, Names, LoadDeps;
    var i := FindByName(st.dlls, name);
    if i == |st.dlls| && fs[name].DllFile? {
      var file := fs[name];
      var (heap, bases) := PlaceObjects(st.heap, limit, file.sizes, |file.sizes|);
      if bases.Some? && file.mapsAt(bases.value) {
        var stack := loading + {name};
        assert fs.Keys - stack < fs.Keys - loading by {
          assert name in fs.Keys - loading;
        }
        DepsRanks(fs, rank, limit, st.(heap := heap), name, |file.imports|, stack);
        var (deps, failed) := LoadDeps(fs, limit, st.(heap := heap), file.imports, |file.imports|, stack);
        var r := Registered(deps, name, file.imports, bases.value, stack, failed);
        assert Placed(fs, rank, r.fixes[|deps.fixes|]);
        PlacedTrans(fs, rank, st, deps, r);
      }
    }
  }

  lemma {:induction false} DepsRanks(fs: map<string, DllFile>, rank: string -> nat, limit: nat, st: State, name: string, n: nat, loading: set<string>)
    requires Acyclic(fs, rank) && name in fs && fs[name].DllFile? && n <= |fs[name].imports| && loading <= fs.Keys
    requires Above(loading, rank, rank(name))
    ensures NewFixesPlaced(fs, rank, st, LoadDeps(fs, limit, st, fs[name].imports, n, loading).0)
    decreases fs.Keys - loading, 1, n
  {
    hide Upper, Names, Load, NewFixesPlaced;
    var imports := fs[name].imports;
    PlacedSelf(fs, rank, st);
    if n == 0 {
      DepsStart(fs, limit, st, imports, loading);
    } else {
      DepsRanks(fs, rank, limit, st, name, n - 1, loading);
      DepsStep(fs, limit, st, imports, n - 1, loading);
      var before := LoadDeps(fs, limit, st, imports, n - 1, loading).0;
      var dep := Upper(imports[n - 1]);
      if Wanted(before, dep, loading) && dep in fs {
        assert rank(dep) < rank(name);
        LoadRanks(fs, rank, limit, before, dep, loading);
        PlacedTrans(fs, rank, st, before, Load(fs, limit, before, dep, loading).0);
      }
    }
  }

  lemma PlacedSelf(fs: map<string, DllFile>, rank: string -> nat, st: State)
    ensures NewFixesPlaced(fs, rank, st, st)
  {
  }

  // ----- over whole runs -----

  lemma {:induction false} RunPlaces(fs: map<string, DllFile>, rank: string -> nat, base: nat, limit: nat, calls: seq<Call>)
    requires Acyclic(fs, rank)
    ensures forall i :: 0 <= i < |RunCalls(fs, base, limit, calls).fixes| ==> Placed(fs, rank, RunCalls(fs, base, limit, calls).fixes[i])
  {
    hide Load, Placed, Acyclic, Upper;
    if calls != [] {
      RunPlaces(fs, rank, base, limit, calls[..|calls| - 1]);
      var st := RunCalls(fs, base, limit, calls[..|calls| - 1]);
      var st' := RunCalls(fs, base, limit, calls);
      match calls[|calls| - 1] {
        case LoadModule(name) =>
          if Upper(name) in fs {
            LoadRanks(fs, rank, limit, st, Upper(name), {});
          }
        case _ =>
      }
      forall i | 0 <= i < |st'.fixes|
        ensures Placed(fs, rank, st'.fixes[i])
      {
        if i < |st.fixes| {
          assert st.fixes[i] == st'.fixes[i];
        }
      }
    }
  }

  /** In any run, every application of fixups finds each import built in, registered, on the stack, or failed. */
  lemma {:induction false} RunFixesOk(fs: map<string, DllFile>, base: nat, limit: nat, calls: seq<Call>)
    ensures forall i :: 0 <= i < |RunCalls(fs, base, limit, calls).fixes| ==> FixOk(RunCalls(fs, base, limit, calls).fixes[i])
  {
    hide Load, FixOk, Upper, Names;
    if calls != [] {
      RunFixesOk(fs, base, limit, calls[..|calls| - 1]);
      var st := RunCalls(fs, base, limit, calls[..|calls| - 1]);
      var st' := RunCalls(fs, base, limit, calls);
      match calls[|calls| - 1] {
        case LoadModule(name) =>
          if Upper(name) in fs {
            if Upper(name) in Names(st.dlls) {
              RegisteredNeedsNoFixups(fs, limit, st, Upper(name));
            } else {
              LoadNames(fs, limit, st, Upper(name), {});
            }
          }
        case _ =>
      }
      forall i | 0 <= i < |st'.fixes|
        ensures FixOk(st'.fixes[i])
      {
        if i < |st.fixes| {
          assert st.fixes[i] == st'.fixes[i];
        }
      }
    }
  }

  /**
   * Whenever fixups are applied, in any run at all, an import that is not built in and whose load did not fail
   * is registered exactly when it is not on the loading stack.
   */
  lemma ResolvedUnlessCyclic(fs: map<string, DllFile>, base: nat, limit: nat, calls: seq<Call>, i: nat, k: nat)
    requires i < |RunCalls(fs, base, limit, calls).fixes| && k < |RunCalls(fs, base, limit, calls).fixes[i].imports|
    ensures var e := RunCalls(fs, base, limit, calls).fixes[i];
            var dep := Upper(e.imports[k]);
            dep !in BUILTIN_MODULES && dep !in e.failed ==> (dep in e.registered <==> dep !in e.stack)
  {
    hide RunCalls;
    RunFixesOk(fs, base, limit, calls);
  }

  /** On a graph without cycles, every such import is registered before its importer's fixups. */
  lemma AcyclicImportsResolved(fs: map<string, DllFile>, rank: string -> nat, base: nat, limit: nat, calls: seq<Call>, i: nat, k: nat)
    requires Acyclic(fs, rank)
    requires i < |RunCalls(fs, base, limit, calls).fixes| && k < |RunCalls(fs, base, limit, calls).fixes[i].imports|
    ensures var e := RunCalls(fs, base, limit, calls).fixes[i];
            var dep := Upper(e.imports[k]);
            && e.name in fs && fs[e.name].DllFile? && e.imports == fs[e.name].imports
            && (dep !in BUILTIN_MODULES && dep !in e.failed ==> dep in e.registered)
  {
    hide RunCalls, Upper;
    RunFixesOk(fs, base, limit, calls);
    RunPlaces(fs, rank, base, limit, calls);
    var e := RunCalls(fs, base, limit, calls).fixes[i];
    assert Placed(fs, rank, e);
    var dep := Upper(e.imports[k]);
    assert dep in fs ==> rank(dep) < rank(e.name);
  }
}
