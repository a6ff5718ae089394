/**
 * The semaphore objects and their manager (src/loader/ipc.rs:7-121) with the locked section
 * of each call (src/loader/doscalls.rs:1042-1191), proved to make the steps of `Semaphores`.
 */
module SemaphoreObjects {
  import opened Wrappers
  import opened Semaphores

  const NO_ERROR := 0
  const ERROR_INVALID_HANDLE := 6
  const ERROR_NOT_OWNER := 288
  const ERROR_ALREADY_POSTED := 299

  class EventSemaphore {
    var posted: bool
    ghost const handle: nat

    constructor (posted: bool, ghost handle: nat)
      ensures this.posted == posted && this.handle == handle
    {
      this.posted, this.handle := posted, handle;
    }
  }

  class MutexSemaphore {
    var owner: Option<nat>
    var requestCount: nat
    ghost const handle: nat

    constructor (state: bool, ghost handle: nat)
      ensures Value() == NewMutex(state) && this.handle == handle && Positive()
    {
      owner, requestCount := if state then Some(0) else None, if state then 1 else 0;
      this.handle := handle;
    }

    function Value(): Mutex
      reads this
    {
      Mutex(owner, requestCount)
    }

    predicate Positive()
      reads this
    {
      owner.Some? ==> requestCount > 0
    }

    /** One turn of the loop in `dos_request_mutex_sem`; the caller sleeps when it is not granted. */
    method TryRequest(tid: nat) returns (granted: bool)
      modifies this
      ensures old(Positive()) ==> Positive()
      ensures (Value(), granted) == Requested(old(Value()), tid)
    {
      match owner
      case None =>
        owner, requestCount := Some(tid), 1;
        granted := true;
      case Some(o) =>
        if o == tid {
          requestCount := requestCount + 1;
          granted := true;
        } else {
          granted := false;
        }
    }

    method Release(tid: nat) returns (code: nat)
      requires Positive()
      modifies this
      ensures Positive() && Value() == ReleasedBy(old(Value()), tid).0
      ensures code == if ReleasedBy(old(Value()), tid).1 then NO_ERROR else ERROR_NOT_OWNER
    {
      if owner != Some(tid) {
        return ERROR_NOT_OWNER;
      }
      requestCount := requestCount - 1;
      if requestCount == 0 {
        owner := None;
      }
      return NO_ERROR;
    }
  }

  class SemaphoreManager {
    var eventSems: map<nat, EventSemaphore>
    var mutexSems: map<nat, MutexSemaphore>
    var muxSems: map<nat, Mux>
    var nextHandle: nat

    /** Everything ever created; a waiting thread can still hold what was closed. */
    ghost var events: map<nat, EventSemaphore>
    ghost var mutexes: map<nat, MutexSemaphore>

    /** The value of all of them, kept by every method. */
    ghost var sems: Sems

    ghost predicate Valid()
      reads this, events.Values, mutexes.Values
    {
      && EventsValid() && MutexesValid() && OpenValid() && sems.next == nextHandle
    }

    ghost predicate EventsValid()
      reads this, events.Values
    {
      && (forall h :: h in eventSems ==> h in events && eventSems[h] == events[h])
      && (forall h :: h in sems.events <==> h in events)
      && (forall h :: h in events ==> events[h].handle == h < nextHandle && sems.events[h] == events[h].posted)
    }

    ghost predicate MutexesValid()
      reads this, mutexes.Values
    {
      && (forall h :: h in mutexSems ==> h in mutexes && mutexSems[h] == mutexes[h])
      && (forall h :: h in sems.mutexes <==> h in mutexes)
      && (forall h :: h in mutexes ==> mutexes[h].handle == h < nextHandle && sems.mutexes[h] == mutexes[h].Value() && mutexes[h].Positive())
    }

    ghost predicate OpenValid()
      reads this
    {
      && (forall h :: h in events ==> h !in mutexes && h !in muxSems)
      && (forall h :: h in mutexes ==> h !in muxSems)
      && (forall h :: h in muxSems ==> h < nextHandle && h in sems.muxes && sems.muxes[h] == muxSems[h])
      && (forall h :: h in sems.open <==> h in eventSems || h in mutexSems || h in muxSems)
    }

    // ----- what each part of the invariant needs of a change -----

    twostate lemma EventsKept()
      requires old(EventsValid()) && eventSems == old(eventSems) && events == old(events)
      requires nextHandle >= old(nextHandle) && sems.events == old(sems.events) && unchanged(old(events).Values)
      ensures EventsValid()
    {
      assert forall h :: h in events ==> events[h] in events.Values;
    }

    twostate lemma MutexesKept()
      requires old(MutexesValid()) && mutexSems == old(mutexSems) && mutexes == old(mutexes)
      requires nextHandle >= old(nextHandle) && sems.mutexes == old(sems.mutexes) && unchanged(old(mutexes).Values)
      ensures MutexesValid()
    {
      assert forall h :: h in mutexes ==> mutexes[h] in mutexes.Values;
    }

    twostate lemma EventAdded(new sem: EventSemaphore)
      requires old(EventsValid()) && unchanged(old(events).Values) && sem.handle == old(nextHandle) < nextHandle
      requires eventSems == old(eventSems)[sem.handle := sem] && events == old(events)[sem.handle := sem]
      requires sems.events == old(sems.events)[sem.handle := sem.posted]
      ensures EventsValid()
    {
      assert forall h :: h in old(events) ==> old(events)[h] in old(events).Values;
    }

    twostate lemma MutexAdded(new sem: MutexSemaphore)
      requires old(MutexesValid()) && unchanged(old(mutexes).Values) && sem.handle == old(nextHandle) < nextHandle
      requires mutexSems == old(mutexSems)[sem.handle := sem] && mutexes == old(mutexes)[sem.handle := sem]
      requires sems.mutexes == old(sems.mutexes)[sem.handle := sem.Value()] && sem.Positive()
      ensures MutexesValid()
    {
      assert forall h :: h in old(mutexes) ==> old(mutexes)[h] in old(mutexes).Values;
    }

    twostate lemma OpenAdded(h: nat)
      requires old(Valid()) && h == old(nextHandle) < nextHandle
      requires (events.Keys == old(events).Keys + {h} && eventSems.Keys == old(eventSems).Keys + {h}
                && mutexes == old(mutexes) && mutexSems == old(mutexSems))
            || (mutexes.Keys == old(mutexes).Keys + {h} && mutexSems.Keys == old(mutexSems).Keys + {h}
                && events == old(events) && eventSems == old(eventSems))
      requires muxSems == old(muxSems) && sems.muxes == old(sems.muxes) && sems.open == old(sems.open) + {h}
      ensures OpenValid()
    {
    }

    constructor ()
      ensures Valid() && sems == NO_SEMS
    {
      eventSems, mutexSems, muxSems, nextHandle := map[], map[], map[], 1;
      events, mutexes, sems := map[], map[], NO_SEMS;
    }

    method CreateEvent(posted: bool) returns (h: nat)
      requires Valid()
      modifies this
      ensures Valid() && h == old(nextHandle) && sems == WithEvent(old(sems), posted)
    {
      hide EventsValid, MutexesValid, OpenValid;
      h := nextHandle;
      var sem := new EventSemaphore(posted, h);
      eventSems, events := eventSems[h := sem], events[h := sem];
      sems := WithEvent(sems, posted);
      nextHandle := nextHandle + 1;
      EventAdded(sem);
      MutexesKept();
      OpenAdded(h);
    }

    method CreateMutex(state: bool) returns (h: nat)
      requires Valid()
      modifies this
      ensures Valid() && h == old(nextHandle) && sems == WithMutex(old(sems), state)
    {
      hide EventsValid, MutexesValid, OpenValid;
      h := nextHandle;
      var sem := new MutexSemaphore(state, h);
      mutexSems, mutexes := mutexSems[h := sem], mutexes[h := sem];
      sems := WithMutex(sems, state);
      nextHandle := nextHandle + 1;
      EventsKept();
      MutexAdded(sem);
      OpenAdded(h);
    }

    method CreateMux(mux: Mux) returns (h: nat)
      requires Valid()
      modifies this
      ensures Valid() && h == old(nextHandle) && sems == WithMux(old(sems), mux)
    {
      h := nextHandle;
      muxSems, sems := muxSems[h := mux], WithMux(sems, mux);
      nextHandle := nextHandle + 1;
    }

    method CloseEvent(h: nat) returns (code: nat)
      requires Valid()
      modifies this
      ensures Valid()
      ensures if h in old(sems).open && h in old(sems).events
              then code == NO_ERROR && sems == Closed(old(sems), h)
              else code == ERROR_INVALID_HANDLE && sems == old(sems)
    {
      code := if h in eventSems then NO_ERROR else ERROR_INVALID_HANDLE;
      sems := if h in eventSems then Closed(sems, h) else sems;
      eventSems := eventSems - {h};
    }

    method CloseMutex(h: nat) returns (code: nat)
      requires Valid()
      modifies this
      ensures Valid()
      ensures if h in old(sems).open && h in old(sems).mutexes
              then code == NO_ERROR && sems == Closed(old(sems), h)
              else code == ERROR_INVALID_HANDLE && sems == old(sems)
    {
      code := if h in mutexSems then NO_ERROR else ERROR_INVALID_HANDLE;
      sems := if h in mutexSems then Closed(sems, h) else sems;
      mutexSems := mutexSems - {h};
    }

    /** `dos_post_event_sem`, which holds the manager's lock throughout. */
    method PostEvent(h: nat) returns (code: nat)
      requires Valid()
      modifies `sems, eventSems.Values
      ensures Valid()
      ensures var s := old(sems);
              if h in s.open && h in s.events
              then code == (if s.events[h] then ERROR_ALREADY_POSTED else NO_ERROR) && sems == s.(events := s.events[h := true])
              else code == ERROR_INVALID_HANDLE && sems == s
    {
      if h !in eventSems {
        return ERROR_INVALID_HANDLE;
      }
      if eventSems[h].posted {
        code := ERROR_ALREADY_POSTED;
      } else {
        eventSems[h].posted := true;
        code := NO_ERROR;
      }
      sems := sems.(events := sems.events[h := true]);
    }

    /** The first part of `dos_request_mutex_sem` and `dos_release_mutex_sem`. */
    method GetMutex(h: nat) returns (sem: Option<MutexSemaphore>)
      requires Valid()
      ensures sem.Some? <==> h in sems.open && h in sems.mutexes
      ensures sem.Some? ==> sem.value == mutexes[h]
    {
      sem := if h in mutexSems then Some(mutexSems[h]) else None;
    }

    /** A turn of the request loop on a mutex found earlier, closed since then or not. */
    method RequestFound(tid: nat, ghost h: nat, sem: MutexSemaphore) returns (granted: bool)
      requires Valid() && h in mutexes && mutexes[h] == sem
      modifies `sems, sem
      ensures Valid()
      ensures var (m, g) := Requested(old(sems.mutexes[h]), tid);
              granted == g && sems == old(sems).(mutexes := old(sems).mutexes[h := m])
    {
      granted := sem.TryRequest(tid);
      sems := sems.(mutexes := sems.mutexes[h := sem.Value()]);
    }

    /** A release of a mutex found earlier. */
    method ReleaseFound(tid: nat, ghost h: nat, sem: MutexSemaphore) returns (code: nat)
      requires Valid() && h in mutexes && mutexes[h] == sem
      modifies `sems, sem
      ensures Valid()
      ensures var (m, done) := ReleasedBy(old(sems.mutexes[h]), tid);
              && code == (if done then NO_ERROR else ERROR_NOT_OWNER)
              && sems == old(sems).(mutexes := old(sems).mutexes[h := m])
    {
      code := sem.Release(tid);
      sems := sems.(mutexes := sems.mutexes[h := sem.Value()]);
    }

    /** One look of the multi-wait scan. */
    method IsReady(tid: nat, h: nat) returns (ready: bool)
      requires Valid()
      ensures ready == Ready(sems, tid, h)
    {
      if h in eventSems {
        ready := eventSems[h].posted;
      } else if h in mutexSems {
        var owner := mutexSems[h].owner;
        ready := owner.None? || owner == Some(tid);
      } else {
        ready := false;
      }
    }
  }
}
