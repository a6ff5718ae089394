/**
 * Properties of DLL loading over whole runs: modules own their memory, reference counts
 * are loads minus frees, and imports are resolved before fixups except along cycles.
 */
module DllProperties {
  import opened Bytes
  import opened Wrappers
  import opened Allocator
  import opened Dlls
  import opened DllNames

  // ----- the invariant -----

  /** All object blocks of the registered DLLs. */
  function Owned(dlls: seq<Dll>): multiset<nat> {
    if dlls == [] then multiset{} else Owned(dlls[..|dlls| - 1]) + multiset(dlls[|dlls| - 1].bases)
  }

  predicate Unique(dlls: seq<Dll>) {
    forall i, j :: 0 <= i < j < |dlls| ==> dlls[i].name != dlls[j].name && dlls[i].handle != dlls[j].handle
  }

  /** Each count is the successful loads of the handle minus its frees, and is positive. */
  ghost predicate Counted(st: State) {
    && (forall i :: 0 <= i < |st.dlls| ==>
          && st.dlls[i].refCount >= 1 && st.dlls[i].handle < st.nextHandle
          && st.loads[st.dlls[i].handle] == st.dlls[i].refCount + st.frees[st.dlls[i].handle])
    && (forall h :: h in st.loads || h in st.frees ==> h < st.nextHandle)
  }

  /** Every owned block is live, and owned once. */
  ghost predicate Owns(st: State) {
    forall a :: a in Owned(st.dlls) ==> Owned(st.dlls)[a] == 1 && a in LiveAddrs(st.heap)
  }

  ghost predicate Good(st: State, base: nat, limit: nat) {
    Valid(st.heap, base, limit) && Unique(st.dlls) && Counted(st) && Owns(st)
  }

  // ----- placing objects -----

  lemma {:induction false} PlaceKeeps(h: Heap, base: nat, limit: nat, sizes: seq<u32>, n: nat)
    requires Valid(h, base, limit) && n <= |sizes|
    ensures var (after, bases) := PlaceObjects(h, limit, sizes, n);
            && Valid(after, base, limit) && LiveAddrs(h) <= LiveAddrs(after)
            && (bases.Some? ==>
                  |bases.value| == n
                  && forall a :: a in multiset(bases.value) ==>
                       multiset(bases.value)[a] == 1 && a in LiveAddrs(after) && a !in LiveAddrs(h))
  {
    hide Valid, Allocated, LiveAddrs;
    if n > 0 {
      PlaceKeeps(h, base, limit, sizes, n - 1);
      var (before, bases) := PlaceObjects(h, limit, sizes, n - 1);
      if bases.Some? {
        AllocKeepsValid(before, base, limit, AtLeastPage(sizes[n - 1]));
        AllocAddsAddr(before, base, limit, AtLeastPage(sizes[n - 1]));
      }
    }
  }

  // ----- what a load takes from the heap -----

  /** The blocks of the longest prefix of the first `n` objects that found memory. */
  function PlacedPrefix(h: Heap, limit: nat, sizes: seq<u32>, n: nat): seq<nat>
    requires n <= |sizes|
  {
    var bases := PlaceObjects(h, limit, sizes, n).1;
    if bases.Some? || n == 0 then bases.value else PlacedPrefix(h, limit, sizes, n - 1)
  }

  /** What opening, placing and mapping the file takes from the heap. */
  function Taken(file: DllFile, h: Heap, limit: nat): seq<nat> {
    if file.Unreadable? then [] else PlacedPrefix(h, limit, file.sizes, |file.sizes|)
  }

  function AsSet(bases: seq<nat>): set<nat> {
    set a | a in bases
  }

  /** What a load leaves behind: the blocks it took if it fails, and those of its imports that failed. */
  function LeakedBy(fs: map<string, DllFile>, limit: nat, st: State, name: string, loading: set<string>): set<nat>
    requires name in fs && name !in loading && loading <= fs.Keys
    decreases fs.Keys - loading, 0, 0
  {
    var file := fs[name];
    if Load(fs, limit, st, name, loading).1.None? then AsSet(Taken(file, st.heap, limit))
    else if FindByName(st.dlls, name) < |st.dlls| then {}
    else
      var heap := PlaceObjects(st.heap, limit, file.sizes, |file.sizes|).0;
      LeakedByDeps(fs, limit, st.(heap := heap), file.imports, |file.imports|, loading + {name})
  }

  function LeakedByDeps(fs: map<string, DllFile>, limit: nat, st: State, imports: seq<string>, n: nat, loading: set<string>): set<nat>
    requires n <= |imports| && loading <= fs.Keys
    decreases fs.Keys - loading, 1, n
  {
    if n == 0 then {}
    else
      var before, dep := LoadDeps(fs, limit, st, imports, n - 1, loading).0, Upper(imports[n - 1]);
      LeakedByDeps(fs, limit, st, imports, n - 1, loading)
      + (if Wanted(before, dep, loading) && dep in fs then LeakedBy(fs, limit, before, dep, loading) else {})
  }

  function OwnedSet(dlls: seq<Dll>): set<nat> {
    set a | a in Owned(dlls)
  }

  /**
   * From `st` to `st'` the live addresses grow by exactly those of new DLLs and those of
   * `leaked`, and these are all new and apart.
   */
  ghost predicate Accounts(st: State, st': State, leaked: set<nat>) {
    && LiveAddrs(st'.heap) == LiveAddrs(st.heap) + leaked + OwnedSet(st'.dlls)
    && leaked !! LiveAddrs(st.heap) && leaked !! OwnedSet(st'.dlls)
    && OwnedSet(st.dlls) <= OwnedSet(st'.dlls)
    && (forall a :: a in OwnedSet(st'.dlls) ==> a in OwnedSet(st.dlls) || a !in LiveAddrs(st.heap))
  }

  lemma AccountsTrans(a: State, b: State, c: State, first: set<nat>, second: set<nat>)
    requires Owns(a) && Accounts(a, b, first) && Accounts(b, c, second)
    ensures Accounts(a, c, first + second)
  {
    hide LiveAddrs, Owned;
    assert OwnedSet(a.dlls) <= LiveAddrs(a.heap);
  }

  lemma AccountsSelf(st: State)
    requires Owns(st)
    ensures Accounts(st, st, {})
  {
    hide LiveAddrs, Owned;
    assert OwnedSet(st.dlls) <= LiveAddrs(st.heap);
  }

  /** Placing objects makes exactly those blocks live, whether or not it goes through. */
  lemma {:induction false} PlacingTakes(h: Heap, base: nat, limit: nat, sizes: seq<u32>, n: nat)
    requires Valid(h, base, limit) && n <= |sizes|
    ensures var after, placed := PlaceObjects(h, limit, sizes, n).0, PlacedPrefix(h, limit, sizes, n);
            && Valid(after, base, limit)
            && LiveAddrs(after) == LiveAddrs(h) + AsSet(placed)
            && (forall a :: a in placed ==> a !in LiveAddrs(h))
            && (placed == [] <==> n == 0 || Allocated(h, limit, AtLeastPage(sizes[0])).1.None?)
  {
    hide Valid, Allocated, LiveAddrs, AtLeastPage;
    if n > 0 {
      PlacingTakes(h, base, limit, sizes, n - 1);
      var (before, bases) := PlaceObjects(h, limit, sizes, n - 1);
      var size := AtLeastPage(sizes[n - 1]);
      AtLeastOneByte(sizes[n - 1]);
      AllocKeepsValid(before, base, limit, size);
      AllocAddsAddr(before, base, limit, size);
      if bases.Some? {
        var addr := Allocated(before, limit, size).1;
        var placed := PlacedPrefix(h, limit, sizes, n);
        assert placed == if addr.Some? then bases.value + [addr.value] else bases.value;
        if n == 1 {
          assert before == h && bases.value == [];
        }
      }
    }
  }

  lemma AtLeastOneByte(size: u32)
    ensures AtLeastPage(size) >= 1
  {
  }

  /** Distinct live blocks that no DLL of `dlls` owns. */
  ghost predicate Fresh(bases: seq<nat>, heap: Heap, dlls: seq<Dll>) {
    forall a :: a in multiset(bases) ==> multiset(bases)[a] == 1 && a in LiveAddrs(heap) && a !in Owned(dlls)
  }

  // ----- one load -----

  /** Taking memory alone keeps the invariant. */
  lemma MoreMemory(st: State, base: nat, limit: nat, heap: Heap)
    requires Good(st, base, limit) && Valid(heap, base, limit) && LiveAddrs(st.heap) <= LiveAddrs(heap)
    ensures Good(st.(heap := heap), base, limit)
  {
  }

  /** Registering a new name with fresh blocks keeps the invariant. */
  lemma RegisterKeeps(st: State, base: nat, limit: nat, name: string, imports: seq<string>, bases: seq<nat>,
                      stack: set<string>, failed: set<string>)
    requires Good(st, base, limit) && name !in Names(st.dlls)
    requires Fresh(bases, st.heap, st.dlls)
    ensures Good(Registered(st, name, imports, bases, stack, failed), base, limit)
  {
    hide Valid, LiveAddrs, Owned;
    var r := Registered(st, name, imports, bases, stack, failed);
    var d := r.dlls[|st.dlls|];
    OwnedPush(st.dlls, d);
    assert st.nextHandle !in st.loads && st.nextHandle !in st.frees;
    forall i | 0 <= i < |st.dlls|
      ensures r.dlls[i] == st.dlls[i] && st.dlls[i].name != name && st.dlls[i].handle != d.handle
    {
      assert st.dlls[i] in st.dlls;
    }
  }

  /**
   * Loading a name that is not yet registered keeps the invariant, and every block it takes
   * is a new DLL's or left behind by a load that failed.
   */
  lemma {:induction false} LoadNew(fs: map<string, DllFile>, base: nat, limit: nat, st: State, name: string, loading: set<string>)
    requires Good(st, base, limit) && Stacked(fs, st, loading)
    requires name in fs && name !in loading && name !in Names(st.dlls)
    ensures var st' := Load(fs, limit, st, name, loading).0;
            Good(st', base, limit) && Accounts(st, st', LeakedBy(fs, limit, st, name, loading))
    decreases fs.Keys - loading, 2
  {
    hide Good, Accounts, PlaceObjects, PlacedPrefix, LoadDeps, LeakedByDeps, Names;
    NotFound(st.dlls, name);
    var file := fs[name];
    GoodOwns(st, base, limit);
    AccountsSelf(st);
    if file.DllFile? {
      var (heap, bases) := PlaceObjects(st.heap, limit, file.sizes, |file.sizes|);
      PlaceGood(st, base, limit, file.sizes);
      if bases.Some? && file.mapsAt(bases.value) {
        LoadAndRegister(fs, base, limit, st, name, loading, heap, bases.value);
      }
    } else {
      assert AsSet([]) == {};
    }
  }

  lemma GoodOwns(st: State, base: nat, limit: nat)
    requires Good(st, base, limit)
    ensures Owns(st)
  {
  }

  lemma PlaceGood(st: State, base: nat, limit: nat, sizes: seq<u32>)
    requires Good(st, base, limit)
    ensures var (heap, bases) := PlaceObjects(st.heap, limit, sizes, |sizes|);
            && Good(st.(heap := heap), base, limit)
            && Accounts(st, st.(heap := heap), AsSet(PlacedPrefix(st.heap, limit, sizes, |sizes|)))
            && (bases.Some? ==> bases.value == PlacedPrefix(st.heap, limit, sizes, |sizes|) && Fresh(bases.value, heap, st.dlls))
  {
    hide LiveAddrs, Valid, Owned, PlaceObjects;
    PlaceKeeps(st.heap, base, limit, sizes, |sizes|);
    PlacingTakes(st.heap, base, limit, sizes, |sizes|);
    MoreMemory(st, base, limit, PlaceObjects(st.heap, limit, sizes, |sizes|).0);
    assert OwnedSet(st.dlls) <= LiveAddrs(st.heap);
  }

  lemma {:induction false} LoadAndRegister(fs: map<string, DllFile>, base: nat, limit: nat, st: State, name: string,
                                           loading: set<string>, heap: Heap, bases: seq<nat>)
    requires Owns(st) && Good(st.(heap := heap), base, limit) && Stacked(fs, st, loading)
    requires name in fs && name !in loading && name !in Names(st.dlls) && fs[name].DllFile?
    requires Fresh(bases, heap, st.dlls) && Accounts(st, st.(heap := heap), AsSet(bases))
    ensures var stack, imports, placed := loading + {name}, fs[name].imports, st.(heap := heap);
            var (deps, failed) := LoadDeps(fs, limit, placed, imports, |imports|, stack);
            var r := Registered(deps, name, imports, bases, stack, failed);
            Good(r, base, limit) && Accounts(st, r, LeakedByDeps(fs, limit, placed, imports, |imports|, stack))
    decreases fs.Keys - loading, 1
  {
    hide Good, Owned, LiveAddrs, Accounts, Owns, Fresh, LoadDeps, LeakedByDeps, FixOk;
    var stack, imports := loading + {name}, fs[name].imports;
    var placed := st.(heap := heap);
    assert fs.Keys - stack < fs.Keys - loading by {
      assert name in fs.Keys - loading;
    }
    DepsNew(fs, base, limit, placed, imports, |imports|, stack, bases);
    DepsNames(fs, limit, placed, imports, |imports|, stack);
    var (deps, failed) := LoadDeps(fs, limit, placed, imports, |imports|, stack);
    NamesGrow(placed, deps, stack);
    RegisterKeeps(deps, base, limit, name, imports, bases, stack, failed);
    RegisterAccounts(st, heap, deps, name, imports, bases, stack, failed,
                     LeakedByDeps(fs, limit, placed, imports, |imports|, stack));
  }

  /** After the imports, the importer's own blocks become a DLL's. */
  lemma RegisterAccounts(st: State, heap: Heap, deps: State, name: string, imports: seq<string>, bases: seq<nat>,
                         stack: set<string>, failed: set<string>, leaked: set<nat>)
    requires Owns(st) && Accounts(st, st.(heap := heap), AsSet(bases)) && Accounts(st.(heap := heap), deps, leaked)
    ensures Accounts(st, Registered(deps, name, imports, bases, stack, failed), leaked)
  {
    hide LiveAddrs, Names, Owned;
    var r := Registered(deps, name, imports, bases, stack, failed);
    OwnedPush(deps.dlls, Dll(name, deps.nextHandle, bases, 1));
    assert OwnedSet(r.dlls) == OwnedSet(deps.dlls) + AsSet(bases);
    assert OwnedSet(st.dlls) <= LiveAddrs(st.heap);
  }

  /** The loop over the imports; `bases` are the importer's own blocks, not yet registered. */
  lemma {:induction false} DepsNew(fs: map<string, DllFile>, base: nat, limit: nat, st: State, imports: seq<string>, n: nat,
                                   loading: set<string>, bases: seq<nat>)
    requires Good(st, base, limit) && Stacked(fs, st, loading) && n <= |imports| && Fresh(bases, st.heap, st.dlls)
    ensures var st' := LoadDeps(fs, limit, st, imports, n, loading).0;
            && Good(st', base, limit) && Accounts(st, st', LeakedByDeps(fs, limit, st, imports, n, loading))
            && Fresh(bases, st'.heap, st'.dlls)
    decreases fs.Keys - loading, 3, n
  {
    hide Good, Accounts, Owns, Fresh, Load, LeakedBy, Upper, Names, FixOk;
    GoodOwns(st, base, limit);
    AccountsSelf(st);
    if n > 0 {
      DepsNew(fs, base, limit, st, imports, n - 1, loading, bases);
      DepsNames(fs, limit, st, imports, n - 1, loading);
      var before := LoadDeps(fs, limit, st, imports, n - 1, loading).0;
      NamesGrow(st, before, loading);
      var dep := Upper(imports[n - 1]);
      var leaked := LeakedByDeps(fs, limit, st, imports, n - 1, loading);
      if Wanted(before, dep, loading) && dep in fs {
        LoadNew(fs, base, limit, before, dep, loading);
        var after := Load(fs, limit, before, dep, loading).0;
        AccountsTrans(st, before, after, leaked, LeakedBy(fs, limit, before, dep, loading));
        FreshStays(bases, before, after, LeakedBy(fs, limit, before, dep, loading));
      } else {
        assert leaked + {} == leaked;
      }
    }
  }

  lemma FreshStays(bases: seq<nat>, st: State, st': State, leaked: set<nat>)
    requires Fresh(bases, st.heap, st.dlls) && Accounts(st, st', leaked)
    ensures Fresh(bases, st'.heap, st'.dlls)
  {
    hide LiveAddrs, Owned;
    assert forall a :: a in multiset(bases) ==> a !in OwnedSet(st'.dlls);
  }

  // ----- reference counts -----

  lemma {:induction false} SameBasesSameOwned(a: seq<Dll>, b: seq<Dll>)
    requires |a| == |b| && forall i :: 0 <= i < |a| ==> a[i].bases == b[i].bases
    ensures Owned(a) == Owned(b)
  {
    if a != [] {
      SameBasesSameOwned(a[..|a| - 1], b[..|b| - 1]);
    }
  }

  /** Changing one count together with its ledger keeps the invariant. */
  lemma RecountKeeps(st: State, base: nat, limit: nat, i: nat, count: nat, loads: multiset<nat>, frees: multiset<nat>)
    requires Good(st, base, limit) && i < |st.dlls| && count >= 1
    requires loads[st.dlls[i].handle] == count + frees[st.dlls[i].handle]
    requires forall h :: h != st.dlls[i].handle ==> loads[h] == st.loads[h] && frees[h] == st.frees[h]
    ensures Good(st.(dlls := st.dlls[i := st.dlls[i].(refCount := count)], loads := loads, frees := frees), base, limit)
  {
    hide Valid, LiveAddrs, Owned;
    var dlls := st.dlls[i := st.dlls[i].(refCount := count)];
    SameBasesSameOwned(st.dlls, dlls);
    forall h | h in loads || h in frees
      ensures h < st.nextHandle
    {
      assert h != st.dlls[i].handle ==> h in st.loads || h in st.frees;
    }
  }

  lemma CountAt(st: State, base: nat, limit: nat, i: nat)
    requires Good(st, base, limit) && i < |st.dlls|
    ensures st.loads[st.dlls[i].handle] == st.dlls[i].refCount + st.frees[st.dlls[i].handle]
  {
    hide Valid, Unique, Owns;
  }

  lemma RegisteredLoads(fs: map<string, DllFile>, limit: nat, st: State, name: string)
    requires name in fs && name in Names(st.dlls)
    ensures var i := FindByName(st.dlls, name);
            && i < |st.dlls|
            && Load(fs, limit, st, name, {})
            == (st.(dlls := st.dlls[i := st.dlls[i].(refCount := st.dlls[i].refCount + 1)], loads := st.loads + multiset{st.dlls[i].handle}),
                Some(st.dlls[i].handle))
  {
    hide LoadDeps, PlaceObjects;
  }

  /** Loading a registered name again only bumps its count. */
  lemma LoadAgain(fs: map<string, DllFile>, base: nat, limit: nat, st: State, name: string)
    requires Good(st, base, limit) && name in fs && name in Names(st.dlls)
    ensures var (st', handle) := Load(fs, limit, st, name, {});
            var i := FindByName(st.dlls, name);
            && i < |st.dlls| && handle == Some(st.dlls[i].handle) && Good(st', base, limit)
            && st' == st.(dlls := st.dlls[i := st.dlls[i].(refCount := st.dlls[i].refCount + 1)], loads := st'.loads)
  {
    hide Good, Load, Names, FindByName;
    var i := FindByName(st.dlls, name);
    RegisteredLoads(fs, limit, st, name);
    var d := st.dlls[i];
    CountAt(st, base, limit, i);
    RecountKeeps(st, base, limit, i, d.refCount + 1, st.loads + multiset{d.handle}, st.frees);
  }

  // ----- unloading -----

  lemma {:induction false} FreeAllDrops(h: Heap, base: nat, limit: nat, bases: seq<nat>)
    requires Valid(h, base, limit)
    ensures Valid(FreeAll(h, bases), base, limit)
    ensures LiveAddrs(FreeAll(h, bases)) == LiveAddrs(h) - (set a | a in bases)
  {
    hide Valid, Freed, LiveAddrs;
    if bases != [] {
      var init, last := bases[..|bases| - 1], bases[|bases| - 1];
      FreeAllDrops(h, base, limit, init);
      FreeKeepsValid(FreeAll(h, init), base, limit, last);
      FreeDropsAddr(FreeAll(h, init), base, limit, last);
      assert bases == init + [last];
    }
  }

  lemma OwnedPush(dlls: seq<Dll>, d: Dll)
    ensures Owned(dlls + [d]) == Owned(dlls) + multiset(d.bases)
  {
    assert (dlls + [d])[..|dlls|] == dlls;
  }

  lemma {:induction false} OwnedWithout(dlls: seq<Dll>, i: nat)
    requires i < |dlls|
    ensures Owned(dlls) == Owned(Without(dlls, i)) + multiset(dlls[i].bases)
  {
    hide Owned;
    var init, last := dlls[..|dlls| - 1], dlls[|dlls| - 1];
    OwnedPush(init, last);
    assert dlls == init + [last];
    if i < |init| {
      OwnedWithout(init, i);
      OwnedPush(Without(init, i), last);
      assert Without(dlls, i) == Without(init, i) + [last];
    } else {
      assert Without(dlls, i) == init;
    }
  }

  lemma WithoutUnique(dlls: seq<Dll>, i: nat)
    requires Unique(dlls) && i < |dlls|
    ensures Unique(Without(dlls, i))
    ensures forall k :: 0 <= k < |dlls| - 1 ==> Without(dlls, i)[k] in dlls && Without(dlls, i)[k].handle != dlls[i].handle
  {
    var after := Without(dlls, i);
    forall k | 0 <= k < |after|
      ensures after[k] in dlls && after[k].handle != dlls[i].handle
    {
      assert after[k] == dlls[if k < i then k else k + 1];
    }
    forall k, m | 0 <= k < m < |after|
      ensures after[k].name != after[m].name && after[k].handle != after[m].handle
    {
      assert after[k] == dlls[if k < i then k else k + 1];
      assert after[m] == dlls[if m < i then m else m + 1];
    }
  }

  /** Freeing the last reference returns exactly that DLL's blocks, and the rest stays as it was. */
  lemma UnloadReturnsItsBlocks(st: State, base: nat, limit: nat, handle: nat)
    requires Good(st, base, limit)
    requires FindByHandle(st.dlls, handle) < |st.dlls| && st.dlls[FindByHandle(st.dlls, handle)].refCount == 1
    ensures var i := FindByHandle(st.dlls, handle);
            var after := FreeModule(st, handle);
            && Good(after, base, limit) && after.dlls == Without(st.dlls, i)
            && LiveAddrs(after.heap) == LiveAddrs(st.heap) - (set a | a in st.dlls[i].bases)
            && (forall a :: a in st.dlls[i].bases ==> a in LiveAddrs(st.heap) && a !in Owned(after.dlls))
  {
    hide Valid, LiveAddrs, Owned, FreeAll, Unique;
    var i := FindByHandle(st.dlls, handle);
    var d := st.dlls[i];
    var after := FreeModule(st, handle);
    FreeAllDrops(st.heap, base, limit, d.bases);
    OwnedWithout(st.dlls, i);
    WithoutUnique(st.dlls, i);
    forall a | a in d.bases
      ensures a in LiveAddrs(st.heap) && a !in Owned(after.dlls)
    {
      assert a in multiset(d.bases);
      assert a in Owned(st.dlls);
      assert Owned(st.dlls)[a] == Owned(after.dlls)[a] + multiset(d.bases)[a];
    }
    forall a | a in Owned(after.dlls)
      ensures Owned(after.dlls)[a] == 1 && a in LiveAddrs(after.heap)
    {
      assert a in Owned(st.dlls);
    }
    StillCounted(st, after, i);
  }

  lemma StillCounted(st: State, after: State, i: nat)
    requires Counted(st) && Unique(st.dlls) && i < |st.dlls| && after.dlls == Without(st.dlls, i)
    requires after.loads == st.loads && after.frees == st.frees + multiset{st.dlls[i].handle} && after.nextHandle == st.nextHandle
    ensures Counted(after)
  {
    WithoutUnique(st.dlls, i);
    forall k | 0 <= k < |after.dlls|
      ensures after.dlls[k].refCount >= 1 && after.dlls[k].handle < st.nextHandle
      ensures st.loads[after.dlls[k].handle] == after.dlls[k].refCount + after.frees[after.dlls[k].handle]
    {
      var j :| 0 <= j < |st.dlls| && st.dlls[j] == after.dlls[k];
    }
  }

  lemma FreeModuleKeeps(st: State, base: nat, limit: nat, handle: nat)
    requires Good(st, base, limit)
    ensures Good(FreeModule(st, handle), base, limit)
  {
    var i := FindByHandle(st.dlls, handle);
    if i < |st.dlls| {
      var d := st.dlls[i];
      if d.refCount > 1 {
        hide Valid, LiveAddrs, Owned;
        RecountKeeps(st, base, limit, i, d.refCount - 1, st.loads, st.frees + multiset{handle});
      } else {
        UnloadReturnsItsBlocks(st, base, limit, handle);
      }
    }
  }

  // ----- whole runs -----

  datatype Call =
    | LoadModule(name: string)
    | UnloadModule(handle: nat)
    | GuestAlloc(request: u32)
    | GuestFree(addr: nat)

  function Perform(fs: map<string, DllFile>, limit: nat, st: State, call: Call): State {
    match call
    case LoadModule(name) => if Upper(name) in fs then Load(fs, limit, st, Upper(name), {}).0 else st
    case UnloadModule(handle) => FreeModule(st, handle)
    case GuestAlloc(request) => st.(heap := Allocated(st.heap, limit, request).0)
    case GuestFree(addr) => st.(heap := Freed(st.heap, addr).0)
  }

  function InitialState(base: nat): State {
    State(EmptyHeap(base), [], 0x1000, multiset{}, multiset{}, [])
  }

  function RunCalls(fs: map<string, DllFile>, base: nat, limit: nat, calls: seq<Call>): State {
    if calls == [] then InitialState(base)
    else Perform(fs, limit, RunCalls(fs, base, limit, calls[..|calls| - 1]), calls[|calls| - 1])
  }

  /** Guests ask for at least one byte, and do not free memory that a DLL owns. */
  predicate Behaved(st: State, call: Call) {
    match call
    case GuestAlloc(request) => request >= 1
    case GuestFree(addr) => addr !in Owned(st.dlls)
    case _ => true
  }

  predicate AllBehaved(fs: map<string, DllFile>, base: nat, limit: nat, calls: seq<Call>) {
    calls == []
    || (AllBehaved(fs, base, limit, calls[..|calls| - 1]) && Behaved(RunCalls(fs, base, limit, calls[..|calls| - 1]), calls[|calls| - 1]))
  }

  /** Freeing an address from outside keeps the invariant exactly when no DLL owns it. */
  lemma GuestFreeIff(st: State, base: nat, limit: nat, addr: nat)
    requires Good(st, base, limit)
    ensures Good(st.(heap := Freed(st.heap, addr).0), base, limit) <==> addr !in Owned(st.dlls)
  {
    hide Valid, Freed, LiveAddrs, Owned;
    FreeKeepsValid(st.heap, base, limit, addr);
    FreeDropsAddr(st.heap, base, limit, addr);
  }

  lemma PerformKeepsGood(fs: map<string, DllFile>, base: nat, limit: nat, st: State, call: Call)
    requires Good(st, base, limit) && Behaved(st, call)
    ensures Good(Perform(fs, limit, st, call), base, limit)
  {
    hide Good, Owned, Names, Load, LiveAddrs;
    match call {
      case LoadModule(name) =>
        if Upper(name) in fs {
          if Upper(name) in Names(st.dlls) {
            LoadAgain(fs, base, limit, st, Upper(name));
          } else {
            LoadNew(fs, base, limit, st, Upper(name), {});
          }
        }
      case UnloadModule(handle) =>
        FreeModuleKeeps(st, base, limit, handle);
      case GuestAlloc(request) =>
        GuestAllocKeeps(st, base, limit, request);
      case GuestFree(addr) =>
        GuestFreeIff(st, base, limit, addr);
    }
  }

  lemma GuestAllocKeeps(st: State, base: nat, limit: nat, request: u32)
    requires Good(st, base, limit) && request >= 1
    ensures Good(st.(heap := Allocated(st.heap, limit, request).0), base, limit)
  {
    hide Valid, LiveAddrs, Allocated;
    AllocKeepsValid(st.heap, base, limit, request);
    AllocAddsAddr(st.heap, base, limit, request);
    MoreMemory(st, base, limit, Allocated(st.heap, limit, request).0);
  }

  lemma {:induction false} RunKeepsGood(fs: map<string, DllFile>, base: nat, limit: nat, calls: seq<Call>)
    requires base % PAGE == 0 && base <= limit < TWO32 && AllBehaved(fs, base, limit, calls)
    ensures Good(RunCalls(fs, base, limit, calls), base, limit)
  {
    if calls != [] {
      RunKeepsGood(fs, base, limit, calls[..|calls| - 1]);
      PerformKeepsGood(fs, base, limit, RunCalls(fs, base, limit, calls[..|calls| - 1]), calls[|calls| - 1]);
    }
  }

  lemma OwnersAreDistinct(dlls: seq<Dll>, i: nat, j: nat, a: nat)
    requires i < j < |dlls| && a in dlls[i].bases && a in dlls[j].bases
    ensures Owned(dlls)[a] >= 2
  {
    hide Owned;
    var rest := Without(dlls, j);
    OwnedWithout(dlls, j);
    assert rest[i] == dlls[i];
    OwnedWithout(rest, i);
    assert a in multiset(dlls[i].bases) && a in multiset(dlls[j].bases);
  }

  // ----- room for every object -----

  /** A live block of at least `size` bytes at `addr`. */
  ghost predicate HasRoom(h: Heap, addr: nat, size: nat) {
    exists b :: BlockAt(h, addr, b) && b.size >= size
  }

  ghost predicate BlockAt(h: Heap, addr: nat, b: Block) {
    b in h.live && b.addr == addr
  }

  /** One block for each of the first `|bases|` objects, large enough for it. */
  ghost predicate Roomy(h: Heap, sizes: seq<u32>, bases: seq<nat>) {
    |bases| <= |sizes| && forall k :: 0 <= k < |bases| ==> HasRoom(h, bases[k], AtLeastPage(sizes[k]))
  }

  /** A registered DLL came from its file and has a block for each of the file's objects. */
  ghost predicate DllHasRoom(fs: map<string, DllFile>, h: Heap, d: Dll) {
    && d.name in fs && fs[d.name].DllFile? && |d.bases| == |fs[d.name].sizes|
    && Roomy(h, fs[d.name].sizes, d.bases)
  }

  ghost predicate AllRoomy(fs: map<string, DllFile>, st: State) {
    forall i :: 0 <= i < |st.dlls| ==> DllHasRoom(fs, st.heap, st.dlls[i])
  }

  /** Blocks at addresses outside `freed` stay as they are. */
  ghost predicate BlocksStay(h: Heap, h': Heap, freed: set<nat>) {
    forall b :: b in h.live && b.addr !in freed ==> b in h'.live
  }

  lemma RoomStays(h: Heap, h': Heap, freed: set<nat>, sizes: seq<u32>, bases: seq<nat>)
    requires BlocksStay(h, h', freed) && Roomy(h, sizes, bases) && forall a :: a in bases ==> a !in freed
    ensures Roomy(h', sizes, bases)
  {
    forall k | 0 <= k < |bases|
      ensures HasRoom(h', bases[k], AtLeastPage(sizes[k]))
    {
      var b :| BlockAt(h, bases[k], b) && b.size >= AtLeastPage(sizes[k]);
      assert BlockAt(h', bases[k], b);
    }
  }

  lemma AllocStays(h: Heap, limit: nat, request: u32)
    ensures var (after, addr) := Allocated(h, limit, request);
            BlocksStay(h, after, {}) && (addr.Some? ==> HasRoom(after, addr.value, request))
  {
    var (after, addr) := Allocated(h, limit, request);
    if addr.Some? {
      assert BlockAt(after, addr.value, after.live[|h.live|]);
    }
  }

  lemma {:induction false} PlaceRoom(h: Heap, limit: nat, sizes: seq<u32>, n: nat)
    requires n <= |sizes|
    ensures var (after, bases) := PlaceObjects(h, limit, sizes, n);
            BlocksStay(h, after, {}) && (bases.Some? ==> |bases.value| == n && Roomy(after, sizes, bases.value))
  {
    hide Allocated, HasRoom, BlockAt;
    if n > 0 {
      PlaceRoom(h, limit, sizes, n - 1);
      var (before, bases) := PlaceObjects(h, limit, sizes, n - 1);
      AllocStays(before, limit, AtLeastPage(sizes[n - 1]));
      if bases.Some? {
        RoomStays(before, Allocated(before, limit, AtLeastPage(sizes[n - 1])).0, {}, sizes, bases.value);
      }
    }
  }

  lemma AllRoomStays(fs: map<string, DllFile>, st: State, st': State, freed: set<nat>)
    requires AllRoomy(fs, st) && BlocksStay(st.heap, st'.heap, freed)
    requires forall d :: d in st'.dlls ==> exists d' :: SameObjects(d, d') && d' in st.dlls
    requires forall d, a :: d in st'.dlls && a in d.bases ==> a !in freed
    ensures AllRoomy(fs, st')
  {
    hide Roomy, BlocksStay;
    forall i | 0 <= i < |st'.dlls|
      ensures DllHasRoom(fs, st'.heap, st'.dlls[i])
    {
      var d := st'.dlls[i];
      assert d in st'.dlls;
      var d' :| SameObjects(d, d') && d' in st.dlls;
      var j :| 0 <= j < |st.dlls| && st.dlls[j] == d';
      assert DllHasRoom(fs, st.heap, st.dlls[j]);
      RoomStays(st.heap, st'.heap, freed, fs[d.name].sizes, d.bases);
    }
  }

  predicate SameObjects(d: Dll, d': Dll) {
    d.name == d'.name && d.bases == d'.bases
  }

  lemma {:induction false} LoadRoom(fs: map<string, DllFile>, limit: nat, st: State, name: string, loading: set<string>)
    requires name in fs && name !in loading && loading <= fs.Keys && AllRoomy(fs, st)
    ensures var st' := Load(fs, limit, st, name, loading).0;
            AllRoomy(fs, st') && BlocksStay(st.heap, st'.heap, {})
    decreases fs.Keys - loading, 0, 0
  {
    hide PlaceObjects, FindByName, Names, LoadDeps, AllRoomy, Roomy;
    var st' := Load(fs, limit, st, name, loading).0;
    var i := FindByName(st.dlls, name);
    if i < |st.dlls| {
      RecountRoom(fs, st, st', i);
    } else if fs[name].DllFile? {
      var file := fs[name];
      var (heap, bases) := PlaceObjects(st.heap, limit, file.sizes, |file.sizes|);
      PlaceRoom(st.heap, limit, file.sizes, |file.sizes|);
      SameDllsRoom(fs, st, heap);
      if bases.Some? && file.mapsAt(bases.value) {
        var stack := loading + {name};
        assert fs.Keys - stack < fs.Keys - loading by {
          assert name in fs.Keys - loading;
        }
        DepsRoom(fs, limit, st.(heap := heap), file.imports, |file.imports|, stack);
        var (deps, failed) := LoadDeps(fs, limit, st.(heap := heap), file.imports, |file.imports|, stack);
        RoomStays(heap, deps.heap, {}, file.sizes, bases.value);
        RegisterRoom(fs, deps, name, file.imports, bases.value, stack, failed);
      }
    }
  }

  lemma {:induction false} DepsRoom(fs: map<string, DllFile>, limit: nat, st: State, imports: seq<string>, n: nat, loading: set<string>)
    requires n <= |imports| && loading <= fs.Keys && AllRoomy(fs, st)
    ensures var st' := LoadDeps(fs, limit, st, imports, n, loading).0;
            AllRoomy(fs, st') && BlocksStay(st.heap, st'.heap, {})
    decreases fs.Keys - loading, 1, n
  {
    hide Upper, Names, Load, AllRoomy;
    if n > 0 {
      DepsRoom(fs, limit, st, imports, n - 1, loading);
      var before := LoadDeps(fs, limit, st, imports, n - 1, loading).0;
      var dep := Upper(imports[n - 1]);
      if Wanted(before, dep, loading) && dep in fs {
        LoadRoom(fs, limit, before, dep, loading);
      }
    }
  }

  lemma RecountRoom(fs: map<string, DllFile>, st: State, st': State, i: nat)
    requires AllRoomy(fs, st) && i < |st.dlls| && st'.heap == st.heap
    requires |st'.dlls| == |st.dlls| && SameObjects(st'.dlls[i], st.dlls[i])
    requires forall k :: 0 <= k < |st.dlls| && k != i ==> st'.dlls[k] == st.dlls[k]
    ensures AllRoomy(fs, st')
  {
    hide Roomy;
    forall k | 0 <= k < |st'.dlls|
      ensures DllHasRoom(fs, st'.heap, st'.dlls[k])
    {
      assert DllHasRoom(fs, st.heap, st.dlls[k]);
    }
  }

  lemma SameDllsRoom(fs: map<string, DllFile>, st: State, heap: Heap)
    requires AllRoomy(fs, st) && BlocksStay(st.heap, heap, {})
    ensures AllRoomy(fs, st.(heap := heap))
  {
    hide AllRoomy, BlocksStay;
    assert forall d :: d in st.dlls ==> SameObjects(d, d);
    AllRoomStays(fs, st, st.(heap := heap), {});
  }

  lemma RegisterRoom(fs: map<string, DllFile>, st: State, name: string, imports: seq<string>, bases: seq<nat>,
                     stack: set<string>, failed: set<string>)
    requires AllRoomy(fs, st) && name in fs && fs[name].DllFile? && |bases| == |fs[name].sizes|
    requires Roomy(st.heap, fs[name].sizes, bases)
    ensures AllRoomy(fs, Registered(st, name, imports, bases, stack, failed))
  {
    hide Roomy;
    var r := Registered(st, name, imports, bases, stack, failed);
    forall i | 0 <= i < |r.dlls|
      ensures DllHasRoom(fs, r.heap, r.dlls[i])
    {
      if i < |st.dlls| {
        assert r.dlls[i] == st.dlls[i];
      }
    }
  }

  lemma FreeStays(h: Heap, addr: nat)
    ensures BlocksStay(h, Freed(h, addr).0, {addr})
  {
    hide Sorted, Coalesced;
    var i := IndexAt(h.live, addr);
    if i < |h.live| {
      var after := Without(h.live, i);
      forall b | b in h.live && b.addr != addr
        ensures b in after
      {
        var k :| 0 <= k < |h.live| && h.live[k] == b;
        assert after[if k < i then k else k - 1] == b;
      }
    }
  }

  lemma {:induction false} FreeAllStays(h: Heap, bases: seq<nat>)
    ensures BlocksStay(h, FreeAll(h, bases), set a | a in bases)
  {
    hide Freed;
    if bases != [] {
      var init, last := bases[..|bases| - 1], bases[|bases| - 1];
      assert bases == init + [last];
      FreeAllStays(h, init);
      FreeStays(FreeAll(h, init), last);
    }
  }

  lemma BasesAreOwned(dlls: seq<Dll>, d: Dll, a: nat)
    requires d in dlls && a in d.bases
    ensures a in Owned(dlls)
  {
    hide Owned;
    var i :| 0 <= i < |dlls| && dlls[i] == d;
    OwnedWithout(dlls, i);
    assert a in multiset(d.bases);
  }

  lemma UnloadRoom(fs: map<string, DllFile>, base: nat, limit: nat, st: State, handle: nat)
    requires Good(st, base, limit) && AllRoomy(fs, st)
    ensures AllRoomy(fs, FreeModule(st, handle))
  {
    hide Good, AllRoomy, FreeAll, Owned, LiveAddrs, BlocksStay;
    var i := FindByHandle(st.dlls, handle);
    var after := FreeModule(st, handle);
    if i < |st.dlls| {
      if st.dlls[i].refCount > 1 {
        RecountRoom(fs, st, after, i);
      } else {
        assert st.dlls[i].refCount == 1 by {
          CountIsPositive(st, base, limit, i);
        }
        UnloadReturnsItsBlocks(st, base, limit, handle);
        var freed := set a | a in st.dlls[i].bases;
        FreeAllStays(st.heap, st.dlls[i].bases);
        WithoutIn(st.dlls, i);
        forall d, a | d in after.dlls && a in d.bases
          ensures a !in freed
        {
          BasesAreOwned(after.dlls, d, a);
        }
        assert forall d :: d in after.dlls ==> SameObjects(d, d);
        AllRoomStays(fs, st, after, freed);
      }
    }
  }

  lemma CountIsPositive(st: State, base: nat, limit: nat, i: nat)
    requires Good(st, base, limit) && i < |st.dlls|
    ensures st.dlls[i].refCount >= 1
  {
  }

  lemma WithoutIn(dlls: seq<Dll>, i: nat)
    requires i < |dlls|
    ensures forall d :: d in Without(dlls, i) ==> d in dlls
  {
  }

  lemma GuestFreeRoom(fs: map<string, DllFile>, st: State, addr: nat)
    requires AllRoomy(fs, st) && addr !in Owned(st.dlls)
    ensures AllRoomy(fs, st.(heap := Freed(st.heap, addr).0))
  {
    hide AllRoomy, Owned, Freed, BlocksStay;
    FreeStays(st.heap, addr);
    forall d, a | d in st.dlls && a in d.bases
      ensures a !in {addr}
    {
      BasesAreOwned(st.dlls, d, a);
    }
    assert forall d :: d in st.dlls ==> SameObjects(d, d);
    AllRoomStays(fs, st, st.(heap := Freed(st.heap, addr).0), {addr});
  }

  lemma {:induction false} RunKeepsRoom(fs: map<string, DllFile>, base: nat, limit: nat, calls: seq<Call>)
    requires base % PAGE == 0 && base <= limit < TWO32 && AllBehaved(fs, base, limit, calls)
    ensures AllRoomy(fs, RunCalls(fs, base, limit, calls))
  {
    hide Good, DllHasRoom, FreeModule, Load, Owned, Allocated, Freed;
    if calls != [] {
      var init := calls[..|calls| - 1];
      RunKeepsRoom(fs, base, limit, init);
      var st := RunCalls(fs, base, limit, init);
      match calls[|calls| - 1] {
        case LoadModule(name) =>
          if Upper(name) in fs {
            LoadRoom(fs, limit, st, Upper(name), {});
          }
        case UnloadModule(handle) =>
          RunKeepsGood(fs, base, limit, init);
          UnloadRoom(fs, base, limit, st, handle);
        case GuestAlloc(request) =>
          AllocStays(st.heap, limit, request);
          SameDllsRoom(fs, st, Allocated(st.heap, limit, request).0);
        case GuestFree(addr) =>
          GuestFreeRoom(fs, st, addr);
      }
    }
  }

  /**
   * In every reachable state: each registered DLL's count is its successful loads minus its
   * frees, and positive; names and handles are distinct; every object of its file has a live
   * block of at least its size, and the blocks at different bases, of one DLL or of two, do
   * not overlap.
   */
  lemma DllsOwnTheirMemory(fs: map<string, DllFile>, base: nat, limit: nat, calls: seq<Call>)
    requires base % PAGE == 0 && base <= limit < TWO32 && AllBehaved(fs, base, limit, calls)
    ensures var st := RunCalls(fs, base, limit, calls);
            && Unique(st.dlls) && Counted(st)
            && (forall i :: 0 <= i < |st.dlls| ==> DllHasRoom(fs, st.heap, st.dlls[i]))
            && (forall i, a :: 0 <= i < |st.dlls| && a in st.dlls[i].bases ==> multiset(st.dlls[i].bases)[a] == 1)
            && (forall i, j, a :: 0 <= i < j < |st.dlls| && a in st.dlls[i].bases ==> a !in st.dlls[j].bases)
            && (forall a, b, c, d :: a != c && BlockAt(st.heap, a, b) && BlockAt(st.heap, c, d) ==> Disjoint(b, d))
  {
    hide RunCalls, AllBehaved, Valid, Owned, Unique, Counted, DllHasRoom;
    RunKeepsGood(fs, base, limit, calls);
    RunKeepsRoom(fs, base, limit, calls);
    var st := RunCalls(fs, base, limit, calls);
    forall i, a | 0 <= i < |st.dlls| && a in st.dlls[i].bases
      ensures multiset(st.dlls[i].bases)[a] == 1
    {
      OwnedWithout(st.dlls, i);
      assert a in multiset(st.dlls[i].bases);
      assert a in Owned(st.dlls) && Owned(st.dlls)[a] == 1;
    }
    forall i, j, a | 0 <= i < j < |st.dlls| && a in st.dlls[i].bases
      ensures a !in st.dlls[j].bases
    {
      OwnedWithout(st.dlls, i);
      assert a in multiset(st.dlls[i].bases);
      if a in st.dlls[j].bases {
        OwnersAreDistinct(st.dlls, i, j, a);
        assert false;
      }
    }
    forall a, b, c, d | a != c && BlockAt(st.heap, a, b) && BlockAt(st.heap, c, d)
      ensures Disjoint(b, d)
    {
      AddrsDisjoint(st.heap, base, limit, b, d);
    }
  }
}
