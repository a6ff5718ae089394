/**
 * What DLL loading leaves behind when it fails (src/loader/lx_loader.rs:167-321), where every
 * live block comes from, and runs that reach the exceptions the other properties of DLLs name.
 */
module DllFailures {
  import opened Bytes
  import opened Wrappers
  import opened Allocator
  import opened Dlls
  import opened DllNames
  import opened DllProperties

  // ----- the blocks of a load that failed -----

  /** The file has an object, and there is memory for the first. */
  predicate TakesMemory(file: DllFile, h: Heap, limit: nat) {
    file.DllFile? && file.sizes != [] && Allocated(h, limit, AtLeastPage(file.sizes[0])).1.Some?
  }

  /**
   * A load that fails changes nothing but the heap.  There it leaves exactly the blocks taken
   * before the failure, which no DLL owns; it leaves the heap's live set alone if and only if
   * the file cannot be read, has no objects, or finds no memory for the first.
   */
  lemma FailedLoadTakes(fs: map<string, DllFile>, base: nat, limit: nat, st: State, name: string, loading: set<string>)
    requires Good(st, base, limit) && Stacked(fs, st, loading)
    requires name in fs && name !in loading && Load(fs, limit, st, name, loading).1.None?
    ensures var st', taken := Load(fs, limit, st, name, loading).0, Taken(fs[name], st.heap, limit);
            && st' == st.(heap := st'.heap) && name !in Names(st'.dlls)
            && LiveAddrs(st'.heap) == LiveAddrs(st.heap) + AsSet(taken)
            && (forall a :: a in taken ==> a !in LiveAddrs(st.heap) && a !in Owned(st'.dlls))
            && (LiveAddrs(st'.heap) == LiveAddrs(st.heap) <==> !TakesMemory(fs[name], st.heap, limit))
  {
    hide PlaceObjects, PlacedPrefix, LiveAddrs, LoadDeps, Owned, Valid, Allocated, AtLeastPage;
    assert FindByName(st.dlls, name) == |st.dlls|;
    var st', taken := Load(fs, limit, st, name, loading).0, Taken(fs[name], st.heap, limit);
    if fs[name].DllFile? {
      PlacingTakes(st.heap, base, limit, fs[name].sizes, |fs[name].sizes|);
      assert taken != [] ==> taken[0] in taken && taken[0] !in LiveAddrs(st.heap);
    }
  }

  /** A live block that no DLL owns stays so through any behaved calls but its own release. */
  lemma {:induction false} UnownedStays(fs: map<string, DllFile>, base: nat, limit: nat, calls: seq<Call>, more: seq<Call>, a: nat)
    requires base % PAGE == 0 && base <= limit < TWO32 && AllBehaved(fs, base, limit, calls + more)
    requires var st := RunCalls(fs, base, limit, calls); a in LiveAddrs(st.heap) && a !in Owned(st.dlls)
    requires GuestFree(a) !in more
    ensures var st := RunCalls(fs, base, limit, calls + more); a in LiveAddrs(st.heap) && a !in Owned(st.dlls)
  {
    hide RunCalls, AllBehaved, LiveAddrs, Owned, Perform, Good;
    if more == [] {
      assert calls + more == calls;
    } else {
      var init, call := more[..|more| - 1], more[|more| - 1];
      assert calls + more == (calls + init) + [call];
      assert call in more;
      RunOne(fs, base, limit, calls + init, call);
      UnownedStays(fs, base, limit, calls, init, a);
      RunKeepsGood(fs, base, limit, calls + init);
      CallSparesUnowned(fs, base, limit, RunCalls(fs, base, limit, calls + init), call, a);
    }
  }

  lemma RunOne(fs: map<string, DllFile>, base: nat, limit: nat, calls: seq<Call>, call: Call)
    ensures RunCalls(fs, base, limit, calls + [call]) == Perform(fs, limit, RunCalls(fs, base, limit, calls), call)
    ensures AllBehaved(fs, base, limit, calls + [call])
            <==> AllBehaved(fs, base, limit, calls) && Behaved(RunCalls(fs, base, limit, calls), call)
  {
    hide Perform, Behaved;
    assert (calls + [call])[..|calls|] == calls;
  }

  lemma CallSparesUnowned(fs: map<string, DllFile>, base: nat, limit: nat, st: State, call: Call, a: nat)
    requires Good(st, base, limit) && Behaved(st, call) && call != GuestFree(a)
    requires a in LiveAddrs(st.heap) && a !in Owned(st.dlls)
    ensures var st' := Perform(fs, limit, st, call); a in LiveAddrs(st'.heap) && a !in Owned(st'.dlls)
  {
    hide LiveAddrs, Owned, Load, FreeModule, Valid, Names, Unique, Counted, Allocated, Freed;
    match call {
      case LoadModule(name) =>
        if Upper(name) in fs {
          if Upper(name) in Names(st.dlls) {
            LoadAgain(fs, base, limit, st, Upper(name));
            var i := FindByName(st.dlls, Upper(name));
            SameBasesSameOwned(st.dlls, st.dlls[i := st.dlls[i].(refCount := st.dlls[i].refCount + 1)]);
          } else {
            LoadNew(fs, base, limit, st, Upper(name), {});
            assert a !in OwnedSet(Load(fs, limit, st, Upper(name), {}).0.dlls);
          }
        }
      case UnloadModule(handle) =>
        UnloadSparesUnowned(st, base, limit, handle, a);
      case GuestAlloc(request) =>
        AllocAddsAddr(st.heap, base, limit, request);
      case GuestFree(addr) =>
        FreeDropsAddr(st.heap, base, limit, addr);
    }
  }

  lemma UnloadSparesUnowned(st: State, base: nat, limit: nat, handle: nat, a: nat)
    requires Good(st, base, limit) && a in LiveAddrs(st.heap) && a !in Owned(st.dlls)
    ensures var st' := FreeModule(st, handle); a in LiveAddrs(st'.heap) && a !in Owned(st'.dlls)
  {
    hide LiveAddrs, Owned, Good, FreeAll;
    var i := FindByHandle(st.dlls, handle);
    if i < |st.dlls| {
      CountIsPositive(st, base, limit, i);
      if st.dlls[i].refCount > 1 {
        SameBasesSameOwned(st.dlls, st.dlls[i := st.dlls[i].(refCount := st.dlls[i].refCount - 1)]);
      } else {
        UnloadReturnsItsBlocks(st, base, limit, handle);
        OwnedWithout(st.dlls, i);
      }
    }
  }

  /**
   * So a failed load leaks, at the top or as an import of one that succeeds: whatever it took
   * is still live at the end of any later behaved run in which the guest does not free the
   * address itself, and no unload returns it.
   */
  lemma FailedLoadLeaks(fs: map<string, DllFile>, base: nat, limit: nat, calls: seq<Call>, name: string, more: seq<Call>, a: nat)
    requires base % PAGE == 0 && base <= limit < TWO32 && AllBehaved(fs, base, limit, calls + [LoadModule(name)] + more)
    requires Upper(name) in fs
    requires a in LeakedBy(fs, limit, RunCalls(fs, base, limit, calls), Upper(name), {})
    requires GuestFree(a) !in more
    ensures a !in LiveAddrs(RunCalls(fs, base, limit, calls).heap)
    ensures var st := RunCalls(fs, base, limit, calls + [LoadModule(name)] + more); a in LiveAddrs(st.heap) && a !in Owned(st.dlls)
  {
    hide RunCalls, AllBehaved, Load, LeakedBy, LiveAddrs, Owned, Upper, Good, Names;
    var st := RunCalls(fs, base, limit, calls);
    BehavedStart(fs, base, limit, calls + [LoadModule(name)], more);
    RunOne(fs, base, limit, calls, LoadModule(name));
    RunKeepsGood(fs, base, limit, calls);
    LoadAccounts(fs, base, limit, st, Upper(name));
    assert a !in OwnedSet(RunCalls(fs, base, limit, calls + [LoadModule(name)]).dlls);
    UnownedStays(fs, base, limit, calls + [LoadModule(name)], more, a);
  }

  /** Every load, of a new name or a registered one, accounts for what it takes. */
  lemma LoadAccounts(fs: map<string, DllFile>, base: nat, limit: nat, st: State, name: string)
    requires Good(st, base, limit) && name in fs
    ensures var st' := Load(fs, limit, st, name, {}).0;
            Good(st', base, limit) && Accounts(st, st', LeakedBy(fs, limit, st, name, {}))
  {
    hide Good, Owned, Accounts, LoadDeps, LeakedByDeps;
    if name in Names(st.dlls) {
      LoadAgain(fs, base, limit, st, name);
      var i := FindByName(st.dlls, name);
      var st' := Load(fs, limit, st, name, {}).0;
      SameBasesSameOwned(st.dlls, st'.dlls);
      GoodOwns(st, base, limit);
      AccountsSelf(st);
      SameAccounts(st, st');
    } else {
      LoadNew(fs, base, limit, st, name, {});
    }
  }

  lemma SameAccounts(st: State, st': State)
    requires Accounts(st, st, {}) && st'.heap == st.heap && Owned(st'.dlls) == Owned(st.dlls)
    ensures Accounts(st, st', {})
  {
  }

  // ----- every live block is accounted for -----

  /** The addresses that the guest was given and has not freed. */
  function GuestBlocks(fs: map<string, DllFile>, base: nat, limit: nat, calls: seq<Call>): set<nat> {
    if calls == [] then {}
    else
      var init, call := calls[..|calls| - 1], calls[|calls| - 1];
      GuestAfter(RunCalls(fs, base, limit, init), limit, GuestBlocks(fs, base, limit, init), call)
  }

  function GuestAfter(st: State, limit: nat, guest: set<nat>, call: Call): set<nat> {
    match call
    case GuestAlloc(request) =>
      var addr := Allocated(st.heap, limit, request).1;
      if addr.Some? then guest + {addr.value} else guest
    case GuestFree(addr) => guest - {addr}
    case _ => guest
  }

  /** The addresses that failed loads took, at the top or nested, and that the guest has not freed. */
  function LeakedBlocks(fs: map<string, DllFile>, base: nat, limit: nat, calls: seq<Call>): set<nat> {
    if calls == [] then {}
    else
      var init, call := calls[..|calls| - 1], calls[|calls| - 1];
      LeakedAfter(fs, RunCalls(fs, base, limit, init), limit, LeakedBlocks(fs, base, limit, init), call)
  }

  function LeakedAfter(fs: map<string, DllFile>, st: State, limit: nat, leaked: set<nat>, call: Call): set<nat> {
    match call
    case LoadModule(name) => if Upper(name) in fs then leaked + LeakedBy(fs, limit, st, Upper(name), {}) else leaked
    case GuestFree(addr) => leaked - {addr}
    case _ => leaked
  }

  /** The live addresses are those of DLLs, of the guest and of failed loads, each of one kind. */
  ghost predicate Accounted(st: State, guest: set<nat>, leaked: set<nat>) {
    && LiveAddrs(st.heap) == OwnedSet(st.dlls) + guest + leaked
    && OwnedSet(st.dlls) !! guest && OwnedSet(st.dlls) !! leaked && guest !! leaked
  }

  /**
   * At every point of every behaved run, each live block belongs to a DLL, or was given to the
   * guest and not freed, or was left behind by a load that failed, and only one of these.
   */
  lemma {:induction false} EveryLiveBlockIsAccountedFor(fs: map<string, DllFile>, base: nat, limit: nat, calls: seq<Call>)
    requires base % PAGE == 0 && base <= limit < TWO32 && AllBehaved(fs, base, limit, calls)
    ensures Accounted(RunCalls(fs, base, limit, calls), GuestBlocks(fs, base, limit, calls), LeakedBlocks(fs, base, limit, calls))
  {
    hide Good, Accounted, Perform, GuestAfter, LeakedAfter, Behaved;
    if calls == [] {
      NothingToAccountFor(base);
    } else {
      var init, call := calls[..|calls| - 1], calls[|calls| - 1];
      EveryLiveBlockIsAccountedFor(fs, base, limit, init);
      RunKeepsGood(fs, base, limit, init);
      CallAccounts(fs, base, limit, RunCalls(fs, base, limit, init), call,
                   GuestBlocks(fs, base, limit, init), LeakedBlocks(fs, base, limit, init));
    }
  }

  lemma NothingToAccountFor(base: nat)
    ensures Accounted(InitialState(base), {}, {})
  {
  }

  lemma CallAccounts(fs: map<string, DllFile>, base: nat, limit: nat, st: State, call: Call, guest: set<nat>, leaked: set<nat>)
    requires Good(st, base, limit) && Behaved(st, call) && Accounted(st, guest, leaked)
    ensures Accounted(Perform(fs, limit, st, call), GuestAfter(st, limit, guest, call), LeakedAfter(fs, st, limit, leaked, call))
  {
    hide Valid, Unique, Counted, LiveAddrs, Owned, Load, LeakedBy, FreeModule, Allocated, Freed, Upper;
    match call {
      case LoadModule(name) =>
        if Upper(name) in fs {
          LoadAccounts(fs, base, limit, st, Upper(name));
        }
      case UnloadModule(handle) =>
        UnloadAccounts(st, base, limit, handle, guest, leaked);
      case GuestAlloc(request) =>
        AllocAddsAddr(st.heap, base, limit, request);
      case GuestFree(addr) =>
        FreeDropsAddr(st.heap, base, limit, addr);
    }
  }

  lemma UnloadAccounts(st: State, base: nat, limit: nat, handle: nat, guest: set<nat>, leaked: set<nat>)
    requires Good(st, base, limit) && Accounted(st, guest, leaked)
    ensures Accounted(FreeModule(st, handle), guest, leaked)
  {
    hide Good, LiveAddrs, Owned, FreeAll;
    var i := FindByHandle(st.dlls, handle);
    if i < |st.dlls| {
      CountIsPositive(st, base, limit, i);
      var after := FreeModule(st, handle);
      if st.dlls[i].refCount > 1 {
        SameBasesSameOwned(st.dlls, after.dlls);
      } else {
        UnloadReturnsItsBlocks(st, base, limit, handle);
        OwnedWithout(st.dlls, i);
        assert forall a :: a in st.dlls[i].bases <==> a in multiset(st.dlls[i].bases);
        assert OwnedSet(st.dlls) == OwnedSet(after.dlls) + AsSet(st.dlls[i].bases);
      }
    }
  }

  lemma {:induction false} BehavedStart(fs: map<string, DllFile>, base: nat, limit: nat, calls: seq<Call>, more: seq<Call>)
    requires AllBehaved(fs, base, limit, calls + more)
    ensures AllBehaved(fs, base, limit, calls)
  {
    hide Behaved, RunCalls;
    if more == [] {
      assert calls + more == calls;
    } else {
      assert calls + more == (calls + more[..|more| - 1]) + [more[|more| - 1]];
      RunOne(fs, base, limit, calls + more[..|more| - 1], more[|more| - 1]);
      BehavedStart(fs, base, limit, calls, more[..|more| - 1]);
    }
  }

  /** Such a load: two objects, and memory for one. */
  lemma SomeLoadLeaks(base: nat)
    requires base % PAGE == 0 && base + PAGE < TWO32
    ensures var fs, limit, st := map["A" := DllFile([100, 100], [], _ => true)], base + PAGE, InitialState(base);
            Load(fs, limit, st, "A", {}).1.None? && Taken(fs["A"], st.heap, limit) == [base]
  {
    var limit, h := base + PAGE, EmptyHeap(base);
    PlaceStep(h, limit, [100, 100], 2);
    PlaceStep(h, limit, [100, 100], 1);
    PlaceStep(h, limit, [100, 100], 0);
    assert [] + [base] == [base];
    assert PlaceObjects(h, limit, [100, 100], 2).1.None?;
    assert PlacedPrefix(h, limit, [100, 100], 1) == [base];
  }

  // ----- a guest frees a block of a DLL -----

  function OneDll(): map<string, DllFile> {
    map["A" := DllFile([100], [], _ => true)]
  }

  /** The state after loading that DLL at the start of a run. */
  function OneLoaded(base: nat): State {
    State(Heap([Block(base, PAGE)], [], base + PAGE), [Dll("A", 0x1000, [base], 1)], 0x1001, multiset{0x1000}, multiset{},
          [Fix("A", [], {}, {"A"}, {})])
  }

  /** A load whose objects find memory and whose pages can be read, up to its imports. */
  lemma LoadPlaced(fs: map<string, DllFile>, limit: nat, st: State, name: string, loading: set<string>, heap: Heap, bases: seq<nat>)
    requires name in fs && name !in loading && loading <= fs.Keys && name !in Names(st.dlls) && fs[name].DllFile?
    requires PlaceObjects(st.heap, limit, fs[name].sizes, |fs[name].sizes|) == (heap, Some(bases)) && fs[name].mapsAt(bases)
    ensures var imports, stack := fs[name].imports, loading + {name};
            var (deps, failed) := LoadDeps(fs, limit, st.(heap := heap), imports, |imports|, stack);
            Load(fs, limit, st, name, loading) == (Registered(deps, name, imports, bases, stack, failed), Some(deps.nextHandle))
  {
    hide PlaceObjects, LoadDeps, Names;
    NotFound(st.dlls, name);
  }

  lemma FirstRegistered(st: State, name: string, imports: seq<string>, bases: seq<nat>, stack: set<string>)
    requires st.dlls == [] && st.loads == multiset{} && st.fixes == []
    ensures Registered(st, name, imports, bases, stack, {})
         == st.(dlls := [Dll(name, st.nextHandle, bases, 1)], nextHandle := st.nextHandle + 1, loads := multiset{st.nextHandle},
                fixes := [Fix(name, imports, {}, stack, {})])
  {
    var r := Registered(st, name, imports, bases, stack, {});
    assert r.dlls == [Dll(name, st.nextHandle, bases, 1)];
    assert r.loads == multiset{st.nextHandle};
    assert Names(st.dlls) == {};
    assert r.fixes == [Fix(name, imports, {}, stack, {})];
  }

  lemma LoadingOne(base: nat, limit: nat)
    requires base + PAGE <= limit < TWO32
    ensures Load(OneDll(), limit, InitialState(base), "A", {}) == (OneLoaded(base), Some(0x1000))
  {
    hide Load, LoadDeps, PlaceObjects;
    var fs, st := OneDll(), InitialState(base);
    PlacingOne(base, limit, []);
    assert [] + [Block(base, PAGE)] == [Block(base, PAGE)];
    var heap := Heap([Block(base, PAGE)], [], base + PAGE);
    assert {} + {"A"} == {"A"};
    assert Names([]) == {};
    DepsStart(fs, limit, st.(heap := heap), [], {"A"});
    FirstRegistered(st.(heap := heap), "A", [], [base], {"A"});
    LoadPlaced(fs, limit, st, "A", {}, heap, [base]);
  }

  /** A block for one object of less than a page, in a heap where nothing was ever freed. */
  lemma PlacingOne(next: nat, limit: nat, live: seq<Block>)
    requires next + PAGE <= limit < TWO32
    ensures PlaceObjects(Heap(live, [], next), limit, [100], 1)
         == (Heap(live + [Block(next, PAGE)], [], next + PAGE), Some([next]))
  {
    PlaceStep(Heap(live, [], next), limit, [100], 1);
    PlaceStep(Heap(live, [], next), limit, [100], 0);
    assert [] + [next] == [next];
  }

  /** The load succeeds and its state is good; the guest's free of the DLL's block is what ends that. */
  lemma GuestFreeBreaks(base: nat, limit: nat)
    requires base % PAGE == 0 && base + PAGE <= limit < TWO32
    ensures var st := RunCalls(OneDll(), base, limit, [LoadModule("A")]);
            st == OneLoaded(base) && Good(st, base, limit) && base in Owned(st.dlls)
    ensures !Good(RunCalls(OneDll(), base, limit, [LoadModule("A"), GuestFree(base)]), base, limit)
  {
    hide Good, Load, Freed;
    var fs, calls := OneDll(), [LoadModule("A")];
    assert Upper("A") == "A";
    assert [LoadModule("A"), GuestFree(base)] == calls + [GuestFree(base)];
    assert calls == [] + calls;
    RunOne(fs, base, limit, [], calls[0]);
    RunOne(fs, base, limit, calls, GuestFree(base));
    LoadingOne(base, limit);
    RunKeepsGood(fs, base, limit, calls);
    var dlls := OneLoaded(base).dlls;
    assert dlls[..0] == [];
    assert base in multiset(dlls[0].bases);
    GuestFreeIff(OneLoaded(base), base, limit, base);
  }

  // ----- two DLLs that import each other -----

  function TwoDlls(): map<string, DllFile> {
    map["A" := DllFile([100], ["B"], _ => true), "B" := DllFile([100], ["A"], _ => true)]
  }

  /** The state when B has been loaded for A, which is not yet registered. */
  function InnerLoaded(base: nat): State {
    State(Heap([Block(base, PAGE), Block(base + PAGE, PAGE)], [], base + 2 * PAGE),
          [Dll("B", 0x1000, [base + PAGE], 1)], 0x1001, multiset{0x1000}, multiset{},
          [Fix("B", ["A"], {}, {"A", "B"}, {})])
  }

  lemma LoadingInner(base: nat, limit: nat)
    requires base + 2 * PAGE <= limit < TWO32
    ensures var st := InitialState(base).(heap := Heap([Block(base, PAGE)], [], base + PAGE));
            Load(TwoDlls(), limit, st, "B", {"A"}) == (InnerLoaded(base), Some(0x1000))
  {
    hide Load, LoadDeps, PlaceObjects;
    var fs, st := TwoDlls(), InitialState(base).(heap := Heap([Block(base, PAGE)], [], base + PAGE));
    PlacingOne(base + PAGE, limit, [Block(base, PAGE)]);
    assert [Block(base, PAGE)] + [Block(base + PAGE, PAGE)] == [Block(base, PAGE), Block(base + PAGE, PAGE)];
    assert {"A"} + {"B"} == {"A", "B"};
    var placed := st.(heap := InnerLoaded(base).heap);
    DepsStart(fs, limit, placed, ["A"], {"A", "B"});
    DepsStep(fs, limit, placed, ["A"], 0, {"A", "B"});
    assert Upper("A") == "A";
    assert Names([]) == {};
    FirstRegistered(placed, "B", ["A"], [base + PAGE], {"A", "B"});
    LoadPlaced(fs, limit, st, "B", {"A"}, placed.heap, [base + PAGE]);
  }

  /** The state after loading A at the start of a run. */
  function BothLoaded(base: nat): State {
    var st := InnerLoaded(base);
    st.(dlls := st.dlls + [Dll("A", 0x1001, [base], 1)], nextHandle := 0x1002, loads := multiset{0x1000, 0x1001},
        fixes := st.fixes + [Fix("A", ["B"], {"B"}, {"A"}, {})])
  }

  lemma LoadingOuter(base: nat, limit: nat)
    requires base + 2 * PAGE <= limit < TWO32
    ensures Load(TwoDlls(), limit, InitialState(base), "A", {}) == (BothLoaded(base), Some(0x1001))
  {
    hide Load, LoadDeps, PlaceObjects;
    var fs, st := TwoDlls(), InitialState(base);
    PlacingOne(base, limit, []);
    assert [] + [Block(base, PAGE)] == [Block(base, PAGE)];
    assert {} + {"A"} == {"A"};
    var placed := st.(heap := Heap([Block(base, PAGE)], [], base + PAGE));
    DepsStart(fs, limit, placed, ["B"], {"A"});
    DepsStep(fs, limit, placed, ["B"], 0, {"A"});
    assert Upper("B") == "B";
    LoadingInner(base, limit);
    assert Names([]) == {};
    assert Names(InnerLoaded(base).dlls) == {"B"} by {
      assert InnerLoaded(base).dlls[0] in InnerLoaded(base).dlls;
    }
    LoadPlaced(fs, limit, st, "A", {}, placed.heap, [base]);
    assert multiset{0x1000} + multiset{0x1001} == multiset{0x1000, 0x1001};
  }

  /**
   * The fixups of B are applied while its import A is on the stack and unregistered, although
   * A is loaded and registered in the end.
   */
  lemma CycleLeavesImportUnresolved(base: nat, limit: nat)
    requires base % PAGE == 0 && base + 2 * PAGE <= limit < TWO32
    ensures var st := RunCalls(TwoDlls(), base, limit, [LoadModule("A")]);
            && |st.fixes| == 2 && st.fixes[0] == Fix("B", ["A"], {}, {"A", "B"}, {})
            && Upper("A") == "A" && "A" !in BUILTIN_MODULES && "A" in Names(st.dlls)
  {
    hide Load;
    assert Upper("A") == "A";
    assert [LoadModule("A")] == [] + [LoadModule("A")];
    RunOne(TwoDlls(), base, limit, [], LoadModule("A"));
    LoadingOuter(base, limit);
    assert BothLoaded(base).dlls[1] in BothLoaded(base).dlls;
  }
}
