/**
 * Semaphores as guest threads see them (src/loader/ipc.rs:7-121, src/loader/doscalls.rs:1042-1215):
 * any number of threads, interleaved at the places where the locks are let go.
 */
module Semaphores {
  import opened Wrappers

  // ----- semaphore values -----

  datatype Mutex = Mutex(owner: Option<nat>, requests: nat)

  datatype Record = Record(sem: nat, user: nat)

  datatype Mux = Mux(records: seq<Record>, waitAll: bool)

  /**
   * Every semaphore ever created, by handle; `open` are the handles still in the manager.
   * A thread that looked a handle up keeps the semaphore after it is closed.
   */
  datatype Sems = Sems(events: map<nat, bool>, mutexes: map<nat, Mutex>, muxes: map<nat, Mux>, open: set<nat>, next: nat)

  const NO_SEMS := Sems(map[], map[], map[], {}, 1)

  function NewMutex(owned: bool): Mutex {
    if owned then Mutex(Some(0), 1) else Mutex(None, 0)
  }

  function WithMutex(s: Sems, owned: bool): Sems {
    s.(mutexes := s.mutexes[s.next := NewMutex(owned)], open := s.open + {s.next}, next := s.next + 1)
  }

  function WithEvent(s: Sems, posted: bool): Sems {
    s.(events := s.events[s.next := posted], open := s.open + {s.next}, next := s.next + 1)
  }

  function WithMux(s: Sems, mux: Mux): Sems {
    s.(muxes := s.muxes[s.next := mux], open := s.open + {s.next}, next := s.next + 1)
  }

  function Closed(s: Sems, handle: nat): Sems {
    s.(open := s.open - {handle})
  }

  /** One look at a mutex by a thread that wants it. */
  function Requested(m: Mutex, tid: nat): (Mutex, bool) {
    if m.owner.None? then (Mutex(Some(tid), 1), true)
    else if m.owner.value == tid then (Mutex(m.owner, m.requests + 1), true)
    else (m, false)
  }

  /** A release by `tid`; false stands for error 288. */
  function ReleasedBy(m: Mutex, tid: nat): (Mutex, bool) {
    if m.owner != Some(tid) then (m, false)
    else if m.requests <= 1 then (Mutex(None, 0), true)
    else (Mutex(m.owner, m.requests - 1), true)
  }

  /** What the multi-wait scan asks of one handle. */
  predicate Ready(s: Sems, tid: nat, handle: nat) {
    if handle in s.open && handle in s.events then s.events[handle]
    else if handle in s.open && handle in s.mutexes then
      s.mutexes[handle].owner.None? || s.mutexes[handle].owner.value == tid
    else false
  }

  // ----- threads -----

  /** Where a guest thread is inside a semaphore call. */
  datatype Thread =
    | Running
    | Requesting(mutex: nat)
    | Releasing(mutex: nat)
    | Waiting(event: nat)
    | Scanning(mux: Mux, at: nat, ready: Option<nat>, all: bool)

  /** What a call returned: error 288 is `NotOwner`, 640 is `GaveUp`, 6 is `BadHandle`. */
  datatype Outcome =
    | Granted(tid: nat, sem: nat)
    | Released(tid: nat, sem: nat)
    | NotOwner(tid: nat, sem: nat)
    | SawEvent(tid: nat, sem: nat)
    | MuxDone(tid: nat, mux: Mux, ready: Option<nat>)
    | GaveUp(tid: nat)
    | BadHandle(tid: nat)

  datatype System = System(sems: Sems, threads: map<nat, Thread>, log: seq<Outcome>) {
    function Of(tid: nat): Thread {
      if tid in threads then threads[tid] else Running
    }

    function Enter(tid: nat, t: Thread): System {
      this.(threads := threads[tid := t])
    }

    function Return(tid: nat, o: Outcome): System {
      this.(threads := threads[tid := Running], log := log + [o])
    }
  }

  datatype Action =
    | CreateMutex(owned: bool)
    | CreateEvent(posted: bool)
    | CreateMux(mux: Mux)
    | Close(handle: nat)
    | Post(handle: nat)
    | Request(tid: nat, handle: nat)
    | Release(tid: nat, handle: nat)
    | Wait(tid: nat, handle: nat)
    | WaitMux(tid: nat, handle: nat)
    | Proceed(tid: nat)
    | GiveUp(tid: nat)

  /** Looking a handle up, at the start of a call. */
  function Entered(s: System, tid: nat, found: bool, t: Thread): System {
    if !s.Of(tid).Running? then s
    else if found then s.Enter(tid, t)
    else s.Return(tid, BadHandle(tid))
  }

  /** The next atomic step of a thread that is inside a call. */
  function Proceeded(s: System, tid: nat): System {
    match s.Of(tid)
    case Running => s
    case Requesting(h) =>
      if h !in s.sems.mutexes then s
      else
        var (m, granted) := Requested(s.sems.mutexes[h], tid);
        if granted then s.(sems := s.sems.(mutexes := s.sems.mutexes[h := m])).Return(tid, Granted(tid, h)) else s
    case Releasing(h) =>
      if h !in s.sems.mutexes then s
      else
        var (m, done) := ReleasedBy(s.sems.mutexes[h], tid);
        if done then s.(sems := s.sems.(mutexes := s.sems.mutexes[h := m])).Return(tid, Released(tid, h))
        else s.Return(tid, NotOwner(tid, h))
    case Waiting(h) =>
      if h in s.sems.events && s.sems.events[h] then s.Return(tid, SawEvent(tid, h)) else s
    case Scanning(mux, at, ready, all) =>
      if at < |mux.records| then
        if Ready(s.sems, tid, mux.records[at].sem)
        then s.Enter(tid, Scanning(mux, at + 1, Some(at), all))
        else s.Enter(tid, Scanning(mux, at + 1, ready, false))
      else if (mux.waitAll && all) || (!mux.waitAll && ready.Some?) then s.Return(tid, MuxDone(tid, mux, ready))
      else s.Enter(tid, Scanning(mux, 0, None, true))
  }

  function Step(s: System, a: Action): System {
    match a
    case CreateMutex(owned) =>
      var created := s.(sems := WithMutex(s.sems, owned));
      if owned then created.(log := s.log + [Granted(0, s.sems.next)]) else created
    case CreateEvent(posted) => s.(sems := WithEvent(s.sems, posted))
    case CreateMux(mux) => s.(sems := WithMux(s.sems, mux))
    case Close(h) => s.(sems := Closed(s.sems, h))
    case Post(h) => if h in s.sems.open && h in s.sems.events then s.(sems := s.sems.(events := s.sems.events[h := true])) else s
    case Request(tid, h) => Entered(s, tid, h in s.sems.open && h in s.sems.mutexes, Requesting(h))
    case Release(tid, h) => Entered(s, tid, h in s.sems.open && h in s.sems.mutexes, Releasing(h))
    case Wait(tid, h) => Entered(s, tid, h in s.sems.open && h in s.sems.events, Waiting(h))
    case WaitMux(tid, h) =>
      var found := h in s.sems.open && h in s.sems.muxes;
      Entered(s, tid, found, if found then Scanning(s.sems.muxes[h], 0, None, true) else Running)
    case Proceed(tid) => Proceeded(s, tid)
    case GiveUp(tid) => if s.Of(tid).Running? || s.Of(tid).Releasing? then s else s.Return(tid, GaveUp(tid))
  }

  /** The state after any interleaving of actions. */
  function Run(actions: seq<Action>): System {
    if actions == [] then System(NO_SEMS, map[], []) else Step(Run(actions[..|actions| - 1]), actions[|actions| - 1])
  }

  // ----- the ledger -----

  /** Requests granted to `tid` on `sem` minus its releases, read off the outcomes alone. */
  function Held(log: seq<Outcome>, tid: nat, sem: nat): int {
    if log == [] then 0
    else
      Held(log[..|log| - 1], tid, sem)
      + (if log[|log| - 1] == Granted(tid, sem) then 1 else if log[|log| - 1] == Released(tid, sem) then -1 else 0)
  }

  lemma HeldPush(log: seq<Outcome>, o: Outcome, tid: nat, sem: nat)
    ensures Held(log + [o], tid, sem) ==
            Held(log, tid, sem) + (if o == Granted(tid, sem) then 1 else if o == Released(tid, sem) then -1 else 0)
  {
    assert (log + [o])[..|log|] == log;
  }

  // ----- the invariant -----

  predicate Handles(s: Sems) {
    && (forall h :: h in s.events ==> h < s.next && h !in s.mutexes)
    && (forall h :: h in s.mutexes ==> h < s.next)
  }

  function Count(m: Mutex, tid: nat): nat {
    if m.owner == Some(tid) then m.requests else 0
  }

  /** The ledger of a handle agrees with its mutex, for every thread. */
  ghost predicate Ledger(log: seq<Outcome>, mutexes: map<nat, Mutex>) {
    && (forall h :: h in mutexes ==> (mutexes[h].owner.None? <==> mutexes[h].requests == 0))
    && (forall h, tid :: Held(log, tid, h) == if h in mutexes then Count(mutexes[h], tid) else 0)
  }

  /** What a multi-wait has established about a handle it found ready. */
  predicate Seen(s: Sems, handle: nat) {
    (handle in s.events && s.events[handle]) || handle in s.mutexes
  }

  predicate ThreadOk(s: Sems, t: Thread) {
    match t
    case Requesting(h) => h in s.mutexes
    case Releasing(h) => h in s.mutexes
    case Waiting(h) => h in s.events
    case Scanning(mux, at, ready, all) =>
      && at <= |mux.records|
      && (all ==> forall k :: 0 <= k < at ==> Seen(s, mux.records[k].sem))
      && (ready.Some? ==> ready.value < at && Seen(s, mux.records[ready.value].sem))
    case _ => true
  }

  /** A returned wait was right, and stays right. */
  predicate OutcomeOk(s: Sems, o: Outcome) {
    match o
    case SawEvent(tid, h) => h in s.events && s.events[h]
    case MuxDone(tid, mux, ready) =>
      if mux.waitAll then forall k :: 0 <= k < |mux.records| ==> Seen(s, mux.records[k].sem)
      else ready.Some? && ready.value < |mux.records| && Seen(s, mux.records[ready.value].sem)
    case _ => true
  }

  /** The `k`-th outcome obeys the ledger of the outcomes before it. */
  ghost predicate Lawful(log: seq<Outcome>, k: nat)
    requires k < |log|
  {
    match log[k]
    case Granted(tid, h) => forall u :: u != tid ==> Held(log[..k], u, h) == 0
    case Released(tid, h) => Held(log[..k], tid, h) > 0
    case NotOwner(tid, h) => Held(log[..k], tid, h) == 0
    case _ => true
  }

  ghost predicate AllLawful(log: seq<Outcome>) {
    forall k :: 0 <= k < |log| ==> Lawful(log, k)
  }

  ghost predicate Inv(s: System) {
    && Handles(s.sems) && Ledger(s.log, s.sems.mutexes) && AllLawful(s.log)
    && (forall tid :: tid in s.threads ==> ThreadOk(s.sems, s.threads[tid]))
    && (forall k :: 0 <= k < |s.log| ==> OutcomeOk(s.sems, s.log[k]))
  }

  // ----- every action keeps it -----

  /** Posts are never undone, and nothing that was seen is taken back. */
  predicate Grown(s: Sems, s': Sems) {
    && (forall h :: h in s.events ==> h in s'.events && (s.events[h] ==> s'.events[h]))
    && (forall h :: h in s.mutexes ==> h in s'.mutexes)
  }

  lemma GrownKeeps(s: Sems, s': Sems, t: Thread, o: Outcome)
    requires Grown(s, s')
    ensures ThreadOk(s, t) ==> ThreadOk(s', t)
    ensures OutcomeOk(s, o) ==> OutcomeOk(s', o)
  {
  }

  lemma GrownAll(s: System, s': Sems)
    requires Inv(s) && Grown(s.sems, s')
    ensures forall tid :: tid in s.threads ==> ThreadOk(s', s.threads[tid])
    ensures forall k :: 0 <= k < |s.log| ==> OutcomeOk(s', s.log[k])
  {
    forall tid | tid in s.threads
      ensures ThreadOk(s', s.threads[tid])
    {
      GrownKeeps(s.sems, s', s.threads[tid], BadHandle(0));
    }
    forall k | 0 <= k < |s.log|
      ensures OutcomeOk(s', s.log[k])
    {
      GrownKeeps(s.sems, s', Running, s.log[k]);
    }
  }

  lemma LawfulPush(log: seq<Outcome>, o: Outcome)
    requires AllLawful(log) && Lawful(log + [o], |log|)
    ensures AllLawful(log + [o])
  {
    forall k | 0 <= k < |log|
      ensures Lawful(log + [o], k)
    {
      assert Lawful(log, k);
      assert (log + [o])[..k] == log[..k];
    }
  }

  /** Creating, closing and posting leave every mutex that exists as it is. */
  lemma QuietKeeps(s: System, sems: Sems)
    requires Inv(s) && Grown(s.sems, sems) && Handles(sems) && Ledger(s.log, sems.mutexes)
    ensures Inv(s.(sems := sems))
  {
    GrownAll(s, sems);
  }

  /** One outcome that changes no ledger. */
  lemma ReturnKeeps(s: System, tid: nat, o: Outcome)
    requires Inv(s) && !o.Granted? && !o.Released? && OutcomeOk(s.sems, o) && Lawful(s.log + [o], |s.log|)
    ensures Inv(s.Return(tid, o))
  {
    hide OutcomeOk, Lawful;
    LawfulPush(s.log, o);
    forall h, u
      ensures Held(s.log + [o], u, h) == Held(s.log, u, h)
    {
      HeldPush(s.log, o, u, h);
    }
  }

  lemma EnterKeeps(s: System, tid: nat, t: Thread)
    requires Inv(s) && ThreadOk(s.sems, t)
    ensures Inv(s.Enter(tid, t))
  {
  }

  /** A grant or a release: the mutex at `h` becomes `m`, and the ledger follows. */
  lemma MutexKeeps(s: System, tid: nat, h: nat, m: Mutex, o: Outcome)
    requires Inv(s) && h < s.sems.next && h !in s.sems.events && o in [Granted(tid, h), Released(tid, h)]
    requires m.owner.None? <==> m.requests == 0
    requires Lawful(s.log + [o], |s.log|)
    requires forall u :: Count(m, u) == Held(s.log, u, h) + (if u != tid then 0 else if o.Granted? then 1 else -1)
    ensures Inv(s.(sems := s.sems.(mutexes := s.sems.mutexes[h := m]), log := s.log + [o]))
  {
    hide Lawful, ThreadOk, OutcomeOk, Ledger, Count, Held;
    var sems := s.sems.(mutexes := s.sems.mutexes[h := m]);
    LawfulPush(s.log, o);
    GrownAll(s, sems);
    LedgerMoves(s.log, s.sems.mutexes, tid, h, m, o);
    forall k | 0 <= k < |s.log| + 1
      ensures OutcomeOk(sems, (s.log + [o])[k])
    {
      if k == |s.log| {
        NotWaited(sems, o);
      }
    }
  }

  lemma NotWaited(s: Sems, o: Outcome)
    requires o.Granted? || o.Released?
    ensures OutcomeOk(s, o)
  {
  }

  lemma LedgerMoves(log: seq<Outcome>, mutexes: map<nat, Mutex>, tid: nat, h: nat, m: Mutex, o: Outcome)
    requires Ledger(log, mutexes) && o in [Granted(tid, h), Released(tid, h)]
    requires m.owner.None? <==> m.requests == 0
    requires forall u :: Count(m, u) == Held(log, u, h) + (if u != tid then 0 else if o.Granted? then 1 else -1)
    ensures Ledger(log + [o], mutexes[h := m])
  {
    hide Held, Count;
    var after := mutexes[h := m];
    forall g, u
      ensures Held(log + [o], u, g) == if g in after then Count(after[g], u) else 0
    {
      HeldPush(log, o, u, g);
    }
  }

  lemma RunningKeeps(s: System, tid: nat)
    requires Inv(s)
    ensures Inv(s.Enter(tid, Running))
  {
  }

  lemma RequestKeeps(s: System, tid: nat, h: nat)
    requires Inv(s) && s.Of(tid) == Requesting(h)
    ensures Inv(Proceeded(s, tid))
  {
    if h in s.sems.mutexes {
      var (m, granted) := Requested(s.sems.mutexes[h], tid);
      if granted {
        var o := Granted(tid, h);
        assert (s.log + [o])[..|s.log|] == s.log;
        assert Lawful(s.log + [o], |s.log|);
        MutexKeeps(s, tid, h, m, o);
        RunningKeeps(s.(sems := s.sems.(mutexes := s.sems.mutexes[h := m]), log := s.log + [o]), tid);
      }
    }
  }

  lemma ReleaseKeeps(s: System, tid: nat, h: nat)
    requires Inv(s) && s.Of(tid) == Releasing(h)
    ensures Inv(Proceeded(s, tid))
  {
    if h in s.sems.mutexes {
      var (m, done) := ReleasedBy(s.sems.mutexes[h], tid);
      var o := if done then Released(tid, h) else NotOwner(tid, h);
      assert (s.log + [o])[..|s.log|] == s.log;
      assert Held(s.log, tid, h) == Count(s.sems.mutexes[h], tid);
      assert Lawful(s.log + [o], |s.log|);
      if done {
        MutexKeeps(s, tid, h, m, o);
        RunningKeeps(s.(sems := s.sems.(mutexes := s.sems.mutexes[h := m]), log := s.log + [o]), tid);
      } else {
        ReturnKeeps(s, tid, o);
      }
    }
  }

  lemma ScanKeeps(s: System, tid: nat)
    requires Inv(s) && s.Of(tid).Scanning?
    ensures Inv(Proceeded(s, tid))
  {
    hide Ledger, AllLawful;
    var t := s.Of(tid);
    assert ThreadOk(s.sems, t);
    if t.at < |t.mux.records| {
      var ready := Ready(s.sems, tid, t.mux.records[t.at].sem);
      EnterKeeps(s, tid, if ready then Scanning(t.mux, t.at + 1, Some(t.at), t.all) else Scanning(t.mux, t.at + 1, t.ready, false));
    } else if (t.mux.waitAll && t.all) || (!t.mux.waitAll && t.ready.Some?) {
      ReturnKeeps(s, tid, MuxDone(tid, t.mux, t.ready));
    } else {
      EnterKeeps(s, tid, Scanning(t.mux, 0, None, true));
    }
  }

  lemma EnteredKeeps(s: System, tid: nat, found: bool, t: Thread)
    requires Inv(s) && (found ==> ThreadOk(s.sems, t))
    ensures Inv(Entered(s, tid, found, t))
  {
    hide Inv;
    if s.Of(tid).Running? {
      if found {
        EnterKeeps(s, tid, t);
      } else {
        ReturnKeeps(s, tid, BadHandle(tid));
      }
    }
  }

  lemma UnusedHandle(s: System, u: nat)
    requires Inv(s)
    ensures Held(s.log, u, s.sems.next) == 0 && s.sems.next !in s.sems.mutexes && s.sems.next !in s.sems.events
  {
    assert s.sems.next !in s.sems.mutexes;
  }

  lemma FreeMutexLedger(log: seq<Outcome>, mutexes: map<nat, Mutex>, h: nat)
    requires Ledger(log, mutexes) && forall u :: Held(log, u, h) == 0
    ensures Ledger(log, mutexes[h := NewMutex(false)])
  {
  }

  lemma CreateMutexKeeps(s: System, owned: bool)
    requires Inv(s)
    ensures Inv(Step(s, CreateMutex(owned)))
  {
    hide ThreadOk, OutcomeOk, Ledger, AllLawful, Held;
    var h := s.sems.next;
    forall u
      ensures Held(s.log, u, h) == 0 && h !in s.sems.mutexes && h !in s.sems.events
    {
      UnusedHandle(s, u);
    }
    if owned {
      var wider := s.sems.(open := s.sems.open + {h}, next := h + 1);
      QuietKeeps(s, wider);
      var o := Granted(0, h);
      assert (s.log + [o])[..|s.log|] == s.log;
      assert Lawful(s.log + [o], |s.log|);
      MutexKeeps(s.(sems := wider), 0, h, NewMutex(true), o);
    } else {
      FreeMutexLedger(s.log, s.sems.mutexes, h);
      QuietKeeps(s, WithMutex(s.sems, false));
    }
  }

  lemma StepKeeps(s: System, a: Action)
    requires Inv(s)
    ensures Inv(Step(s, a))
  {
    match a {
      case CreateMutex(owned) => CreateMutexKeeps(s, owned);
      case CreateEvent(posted) =>
        assert s.sems.next !in s.sems.mutexes;
        QuietKeeps(s, WithEvent(s.sems, posted));
      case CreateMux(mux) => QuietKeeps(s, WithMux(s.sems, mux));
      case Close(h) => QuietKeeps(s, Closed(s.sems, h));
      case Post(h) =>
        if h in s.sems.open && h in s.sems.events {
          QuietKeeps(s, s.sems.(events := s.sems.events[h := true]));
        }
      case Request(tid, h) => EnteredKeeps(s, tid, h in s.sems.open && h in s.sems.mutexes, Requesting(h));
      case Release(tid, h) => EnteredKeeps(s, tid, h in s.sems.open && h in s.sems.mutexes, Releasing(h));
      case Wait(tid, h) => EnteredKeeps(s, tid, h in s.sems.open && h in s.sems.events, Waiting(h));
      case WaitMux(tid, h) =>
        var found := h in s.sems.open && h in s.sems.muxes;
        EnteredKeeps(s, tid, found, if found then Scanning(s.sems.muxes[h], 0, None, true) else Running);
      case Proceed(tid) => ProceedKeeps(s, tid);
      case GiveUp(tid) =>
        if !s.Of(tid).Running? && !s.Of(tid).Releasing? {
          ReturnKeeps(s, tid, GaveUp(tid));
        }
    }
  }

  lemma ProceedKeeps(s: System, tid: nat)
    requires Inv(s)
    ensures Inv(Proceeded(s, tid))
  {
    hide Inv;
    match s.Of(tid) {
      case Running =>
      case Requesting(h) => RequestKeeps(s, tid, h);
      case Releasing(h) => ReleaseKeeps(s, tid, h);
      case Waiting(h) =>
        if h in s.sems.events && s.sems.events[h] {
          ReturnKeeps(s, tid, SawEvent(tid, h));
        }
      case Scanning(_, _, _, _) => ScanKeeps(s, tid);
    }
  }

  lemma {:induction false} RunKeepsInv(actions: seq<Action>)
    ensures Inv(Run(actions))
  {
    if actions == [] {
    } else {
      RunKeepsInv(actions[..|actions| - 1]);
      StepKeeps(Run(actions[..|actions| - 1]), actions[|actions| - 1]);
    }
  }

  // ----- what the invariant gives -----

  /**
   * Mutual exclusion in every reachable state: at most one thread has requests granted and
   * not released, and the mutex records exactly that thread and that number.
   */
  lemma MutualExclusion(actions: seq<Action>, h: nat, t: nat, u: nat)
    ensures var s := Run(actions);
            && Held(s.log, t, h) >= 0
            && (t != u ==> Held(s.log, t, h) == 0 || Held(s.log, u, h) == 0)
            && (h in s.sems.mutexes ==>
                  && (s.sems.mutexes[h].owner == Some(t) <==> Held(s.log, t, h) > 0)
                  && (s.sems.mutexes[h].owner == Some(t) ==> s.sems.mutexes[h].requests == Held(s.log, t, h))
                  && (s.sems.mutexes[h].owner.None? <==> s.sems.mutexes[h].requests == 0))
  {
    hide Run, AllLawful;
    RunKeepsInv(actions);
  }

  /** Each grant finds every other thread's ledger at zero, and 288 is given exactly to non-holders. */
  lemma OutcomesAreLawful(actions: seq<Action>, k: nat)
    requires k < |Run(actions).log|
    ensures Lawful(Run(actions).log, k)
  {
    RunKeepsInv(actions);
  }

  /** A release by a thread that is not the owner returns 288 and changes no semaphore. */
  lemma StrangersReleaseNothing(actions: seq<Action>, tid: nat, h: nat)
    requires var s := Run(actions); s.Of(tid) == Releasing(h) && h in s.sems.mutexes
    ensures var s := Run(actions);
            var s' := Run(actions + [Proceed(tid)]);
            if Held(s.log, tid, h) == 0
            then s'.sems == s.sems && s'.log == s.log + [NotOwner(tid, h)]
            else s'.log == s.log + [Released(tid, h)] && Held(s'.log, tid, h) == Held(s.log, tid, h) - 1
  {
    hide Run, AllLawful, Held, Handles, ThreadOk, OutcomeOk;
    var s := Run(actions);
    RunKeepsInv(actions);
    RunPush(actions, Proceed(tid));
    assert Held(s.log, tid, h) == Count(s.sems.mutexes[h], tid);
    HeldPush(s.log, Released(tid, h), tid, h);
  }

  /**
   * When a wait for all returns, every event it waited for is posted at that moment, however
   * posts and other calls fell between its looks at the records.
   */
  lemma WaitAllIsRight(actions: seq<Action>, k: nat, j: nat)
    requires k < |Run(actions).log| && Run(actions).log[k].MuxDone? && Run(actions).log[k].mux.waitAll
    requires j < |Run(actions).log[k].mux.records|
    ensures var s := Run(actions);
            var h := s.log[k].mux.records[j].sem;
            h !in s.sems.mutexes ==> h in s.sems.events && s.sems.events[h]
  {
    hide Run, Ledger, AllLawful;
    RunKeepsInv(actions);
    assert OutcomeOk(Run(actions).sems, Run(actions).log[k]);
  }

  /** When a wait for any returns, the record it reports is an event posted at that moment, or a mutex. */
  lemma WaitAnyIsRight(actions: seq<Action>, k: nat)
    requires k < |Run(actions).log| && Run(actions).log[k].MuxDone? && !Run(actions).log[k].mux.waitAll
    ensures var s := Run(actions);
            var o := s.log[k];
            && o.ready.Some? && o.ready.value < |o.mux.records|
            && var h := o.mux.records[o.ready.value].sem;
               h !in s.sems.mutexes ==> h in s.sems.events && s.sems.events[h]
  {
    hide Run, Ledger, AllLawful;
    RunKeepsInv(actions);
    assert OutcomeOk(Run(actions).sems, Run(actions).log[k]);
  }

  // ----- the one promise a wait for all does not keep -----

  lemma RunPush(actions: seq<Action>, a: Action)
    ensures Run(actions + [a]) == Step(Run(actions), a)
  {
    assert (actions + [a])[..|actions|] == actions;
  }

  /**
   * With a mutex among the records the promise fails: thread `t` looks at the mutex while it
   * is free, `u` takes it, and the wait for all still returns.
   */
  function TakenDuringScan(t: nat, u: nat): seq<Action> {
    [CreateMutex(false), CreateEvent(true), CreateMux(Mux([Record(1, 10), Record(2, 20)], true)),
     WaitMux(t, 3), Proceed(t), Request(u, 1), Proceed(u), Proceed(t), Proceed(t)]
  }

  lemma WaitAllMissesMutex(t: nat, u: nat)
    requires t != u
    ensures var s := Run(TakenDuringScan(t, u));
            && s.log == [Granted(u, 1), MuxDone(t, Mux([Record(1, 10), Record(2, 20)], true), Some(1))]
            && 1 in s.sems.mutexes && s.sems.mutexes[1].owner == Some(u) && !Ready(s.sems, t, 1)
  {
    hide Run, Step;
    var a := TakenDuringScan(t, u);
    RunStart();
    forall k | 0 <= k < |a|
      ensures Run(a[..k + 1]) == Step(Run(a[..k]), a[k])
    {
      RunPush(a[..k], a[k]);
      assert a[..k + 1] == a[..k] + [a[k]];
    }
    assert a[..0] == [] && a[..9] == a;
    assert a[..1] == a[..0 + 1] && a[..2] == a[..1 + 1] && a[..3] == a[..2 + 1] && a[..4] == a[..3 + 1];
    assert a[..5] == a[..4 + 1] && a[..6] == a[..5 + 1] && a[..7] == a[..6 + 1] && a[..8] == a[..7 + 1];
    TakenAfterCreation();
    TakenAfterLook(t, u);
    TakenAtReturn(t, u);
  }

  const SCANNED := Mux([Record(1, 10), Record(2, 20)], true)

  const CREATED := System(Sems(map[2 := true], map[1 := Mutex(None, 0)], map[3 := SCANNED], {1, 2, 3}, 4), map[], [])

  /** Thread `t` has looked at the first record, and `u` has the mutex. */
  function Taken(t: nat, u: nat): System {
    System(CREATED.sems.(mutexes := map[1 := Mutex(Some(u), 1)]),
           map[t := Scanning(SCANNED, 1, Some(0), true), u := Running], [Granted(u, 1)])
  }

  lemma TakenAfterCreation()
    ensures Step(Step(Step(System(NO_SEMS, map[], []), CreateMutex(false)), CreateEvent(true)), CreateMux(SCANNED)) == CREATED
  {
  }

  lemma TakenAfterLook(t: nat, u: nat)
    requires t != u
    ensures Step(Step(Step(Step(CREATED, WaitMux(t, 3)), Proceed(t)), Request(u, 1)), Proceed(u)) == Taken(t, u)
  {
    var s5 := CREATED.(threads := map[t := Scanning(SCANNED, 1, Some(0), true)]);
    assert Step(Step(CREATED, WaitMux(t, 3)), Proceed(t)) == s5;
    assert Step(s5, Request(u, 1)) == s5.(threads := s5.threads[u := Requesting(1)]);
  }

  lemma TakenAtReturn(t: nat, u: nat)
    requires t != u
    ensures var s := Step(Step(Taken(t, u), Proceed(t)), Proceed(t));
            && s.log == [Granted(u, 1), MuxDone(t, SCANNED, Some(1))]
            && s.sems == Taken(t, u).sems
  {
  }

  lemma RunStart()
    ensures Run([]) == System(NO_SEMS, map[], [])
  {
  }

  // ----- exactly when it fails -----

  predicate By(a: Action, t: nat) {
    match a
    case Request(tid, _) => tid == t
    case Release(tid, _) => tid == t
    case Wait(tid, _) => tid == t
    case WaitMux(tid, _) => tid == t
    case Proceed(tid) => tid == t
    case GiveUp(tid) => tid == t
    case _ => false
  }

  /** No call of `t` concerns the mutex `h`. */
  predicate Uninvolved(s: System, t: nat, h: nat) {
    s.Of(t) != Requesting(h) && s.Of(t) != Releasing(h)
  }

  /** `more` contains no request for `h` and no release of it by `t`; `t` may wait for anything. */
  predicate LeavesAlone(more: seq<Action>, t: nat, h: nat) {
    forall k :: 0 <= k < |more| ==> more[k] != Request(t, h) && more[k] != Release(t, h)
  }

  /** A mutex that a thread holds stays as it is until that thread asks for it or gives it back. */
  lemma {:induction false} HeldMutexStays(actions: seq<Action>, more: seq<Action>, t: nat, h: nat)
    requires h in Run(actions).sems.mutexes && Run(actions).sems.mutexes[h].owner == Some(t)
    requires Uninvolved(Run(actions), t, h) && LeavesAlone(more, t, h)
    ensures h in Run(actions + more).sems.mutexes && Uninvolved(Run(actions + more), t, h)
    ensures Run(actions + more).sems.mutexes[h] == Run(actions).sems.mutexes[h]
  {
    hide Run;
    if more == [] {
      assert actions + more == actions;
    } else {
      var init, a := more[..|more| - 1], more[|more| - 1];
      HeldMutexStays(actions, init, t, h);
      assert actions + more == actions + init + [a];
      RunPush(actions + init, a);
      RunKeepsInv(actions + init);
      StepSparesHeld(Run(actions + init), a, t, h);
    }
  }

  lemma StepSparesHeld(s: System, a: Action, t: nat, h: nat)
    requires Inv(s) && h in s.sems.mutexes && s.sems.mutexes[h].owner == Some(t)
    requires Uninvolved(s, t, h) && a != Request(t, h) && a != Release(t, h)
    ensures h in Step(s, a).sems.mutexes && Step(s, a).sems.mutexes[h] == s.sems.mutexes[h]
    ensures Uninvolved(Step(s, a), t, h)
  {
    assert h < s.sems.next;
    hide Inv, Ready, Proceeded;
    if a.Proceed? {
      ProceedSparesHeld(s, a.tid, t, h);
    }
  }

  lemma ProceedSparesHeld(s: System, u: nat, t: nat, h: nat)
    requires h in s.sems.mutexes && s.sems.mutexes[h].owner == Some(t) && Uninvolved(s, t, h)
    ensures var s' := Proceeded(s, u);
            h in s'.sems.mutexes && s'.sems.mutexes[h] == s.sems.mutexes[h] && Uninvolved(s', t, h)
  {
    hide Ready;
  }

  /**
   * So a wait for all is right of every mutex that the waiting thread held when it called:
   * it is held at the return, as often as before.
   */
  lemma WaitAllIsRightOfHeld(actions: seq<Action>, handle: nat, more: seq<Action>, t: nat)
    requires Run(actions).Of(t).Running?
    requires forall k :: 0 <= k < |more| ==> By(more[k], t) ==> more[k] == Proceed(t)
    requires var log := Run(actions + [WaitMux(t, handle)] + more).log;
             log != [] && log[|log| - 1].MuxDone? && log[|log| - 1].mux.waitAll
    ensures var s, s' := Run(actions), Run(actions + [WaitMux(t, handle)] + more);
            forall r <- s'.log[|s'.log| - 1].mux.records ::
              if r.sem in s.sems.mutexes && s.sems.mutexes[r.sem].owner == Some(t)
              then r.sem in s'.sems.mutexes && s'.sems.mutexes[r.sem] == s.sems.mutexes[r.sem]
              else r.sem in s'.sems.mutexes || (r.sem in s'.sems.events && s'.sems.events[r.sem])
  {
    hide Run;
    var s, s' := Run(actions), Run(actions + [WaitMux(t, handle)] + more);
    var last := |s'.log| - 1;
    forall r | r in s'.log[last].mux.records
      ensures if r.sem in s.sems.mutexes && s.sems.mutexes[r.sem].owner == Some(t)
              then r.sem in s'.sems.mutexes && s'.sems.mutexes[r.sem] == s.sems.mutexes[r.sem]
              else r.sem in s'.sems.mutexes || (r.sem in s'.sems.events && s'.sems.events[r.sem])
    {
      if r.sem in s.sems.mutexes && s.sems.mutexes[r.sem].owner == Some(t) {
        assert actions + [WaitMux(t, handle)] + more == actions + ([WaitMux(t, handle)] + more);
        HeldMutexStays(actions, [WaitMux(t, handle)] + more, t, r.sem);
      } else {
        var j :| 0 <= j < |s'.log[last].mux.records| && s'.log[last].mux.records[j] == r;
        WaitAllIsRight(actions + [WaitMux(t, handle)] + more, last, j);
      }
    }
  }

  /** Thread `t` has looked at every record of a wait for all, and found every one ready. */
  predicate ScanEnded(s: System, t: nat) {
    s.Of(t).Scanning? && s.Of(t).mux.waitAll && s.Of(t).all && s.Of(t).at == |s.Of(t).mux.records|
  }

  predicate Others(more: seq<Action>, t: nat) {
    forall k :: 0 <= k < |more| ==> !By(more[k], t)
  }

  /** No other thread owns `h`. */
  predicate Available(s: System, t: nat, h: nat) {
    h in s.sems.mutexes && (s.sems.mutexes[h].owner.None? || s.sems.mutexes[h].owner == Some(t))
  }

  /** Whatever others do before the wait of `t` returns, no other thread owns `h` then. */
  ghost predicate AvailableAtReturn(actions: seq<Action>, t: nat, h: nat) {
    forall more :: Others(more, t) ==> Available(Run(actions + more + [Proceed(t)]), t, h)
  }

  /** Nobody owns `h`, it is closed, and no other thread is asking for it. */
  ghost predicate Abandoned(s: System, t: nat, h: nat) {
    && h in s.sems.mutexes && s.sems.mutexes[h].owner.None? && h !in s.sems.open
    && forall u :: u != t ==> s.Of(u) != Requesting(h)
  }

  /** After the scan nothing but the return is left, whatever others do in between. */
  lemma {:induction false} ScanStaysEnded(actions: seq<Action>, more: seq<Action>, t: nat)
    requires ScanEnded(Run(actions), t) && Others(more, t)
    ensures Run(actions + more).Of(t) == Run(actions).Of(t)
    ensures var s, s' := Run(actions + more), Run(actions + more + [Proceed(t)]);
            s'.sems == s.sems && s'.log == s.log + [MuxDone(t, Run(actions).Of(t).mux, Run(actions).Of(t).ready)]
  {
    hide Run;
    RunPush(actions + more, Proceed(t));
    if more == [] {
      assert actions + more == actions;
    } else {
      var init, a := more[..|more| - 1], more[|more| - 1];
      ScanStaysEnded(actions, init, t);
      assert actions + more == actions + init + [a];
      RunPush(actions + init, a);
    }
  }

  lemma {:induction false} AbandonedStays(actions: seq<Action>, more: seq<Action>, t: nat, h: nat)
    requires Abandoned(Run(actions), t, h) && Others(more, t)
    ensures Abandoned(Run(actions + more), t, h)
  {
    hide Run, Abandoned;
    if more == [] {
      assert actions + more == actions;
    } else {
      var init, a := more[..|more| - 1], more[|more| - 1];
      AbandonedStays(actions, init, t, h);
      assert actions + more == actions + init + [a];
      RunPush(actions + init, a);
      RunKeepsInv(actions + init);
      StepSparesAbandoned(Run(actions + init), a, t, h);
    }
  }

  lemma StepSparesAbandoned(s: System, a: Action, t: nat, h: nat)
    requires Inv(s) && Abandoned(s, t, h) && !By(a, t)
    ensures Abandoned(Step(s, a), t, h)
  {
    assert h < s.sems.next;
    hide Inv, Proceeded;
    if a.Proceed? {
      ProceedSparesAbandoned(s, a.tid, t, h);
    } else {
      forall u | u != t
        ensures Step(s, a).Of(u) != Requesting(h)
      {
        assert s.Of(u) != Requesting(h);
      }
    }
  }

  lemma ProceedSparesAbandoned(s: System, v: nat, t: nat, h: nat)
    requires Abandoned(s, t, h) && v != t
    ensures Abandoned(Proceeded(s, v), t, h)
  {
    hide Ready;
    forall u | u != t
      ensures Proceeded(s, v).Of(u) != Requesting(h)
    {
      assert s.Of(u) != Requesting(h);
    }
  }

  /** Another thread outside a call can take an open free mutex before the wait returns. */
  lemma FreeMutexCanBeTaken(actions: seq<Action>, t: nat, u: nat, h: nat)
    requires var s := Run(actions);
             && t != u && s.Of(u).Running? && ScanEnded(s, t)
             && h in s.sems.open && h in s.sems.mutexes && s.sems.mutexes[h].owner.None?
    ensures var s, s' := Run(actions), Run(actions + [Request(u, h), Proceed(u)] + [Proceed(t)]);
            && s'.log == s.log + [Granted(u, h), MuxDone(t, s.Of(t).mux, s.Of(t).ready)]
            && h in s'.sems.mutexes && s'.sems.mutexes[h].owner == Some(u)
  {
    hide Run;
    var s := Run(actions);
    assert actions + [Request(u, h), Proceed(u)] == actions + [Request(u, h)] + [Proceed(u)];
    RunPush(actions, Request(u, h));
    RunPush(actions + [Request(u, h)], Proceed(u));
    RunPush(actions + [Request(u, h)] + [Proceed(u)], Proceed(t));
    assert s.log + [Granted(u, h)] + [MuxDone(t, s.Of(t).mux, s.Of(t).ready)]
        == s.log + [Granted(u, h), MuxDone(t, s.Of(t).mux, s.Of(t).ready)];
  }

  /** Only finitely many threads ever made a call. */
  lemma {:induction false} SomeThreadNeverCalled(called: set<nat>, t: nat) returns (u: nat)
    ensures u > t && forall x :: x in called ==> x < u
  {
    if called == {} {
      u := t + 1;
    } else {
      var x :| x in called;
      var v := SomeThreadNeverCalled(called - {x}, t);
      u := if x < v then v else x + 1;
      assert forall y :: y in called ==> y == x || y in called - {x};
    }
  }

  /**
   * The exact condition.  When the scan of a wait for all has ended, a mutex `h` is sure to be
   * free or held by `t` at the return if and only if `t` already holds it, or it is closed and
   * free with nobody asking for it.
   */
  lemma WaitAllIsRightOfMutexIff(actions: seq<Action>, t: nat, h: nat)
    requires ScanEnded(Run(actions), t) && h in Run(actions).sems.mutexes
    ensures AvailableAtReturn(actions, t, h)
            <==> Run(actions).sems.mutexes[h].owner == Some(t) || Abandoned(Run(actions), t, h)
  {
    hide Run, Abandoned;
    var s := Run(actions);
    if s.sems.mutexes[h].owner == Some(t) || Abandoned(s, t, h) {
      forall more | Others(more, t)
        ensures Available(Run(actions + more + [Proceed(t)]), t, h)
      {
        ScanStaysEnded(actions, more, t);
        if s.sems.mutexes[h].owner == Some(t) {
          HeldMutexStays(actions, more, t, h);
        } else {
          AbandonedStays(actions, more, t, h);
          AbandonedIsAvailable(Run(actions + more), t, h);
        }
      }
    } else {
      var more := Taking(actions, t, h);
      ScanStaysEnded(actions, more, t);
    }
  }

  lemma AbandonedIsAvailable(s: System, t: nat, h: nat)
    requires Abandoned(s, t, h)
    ensures Available(s, t, h)
  {
  }

  /** Otherwise there is a way for another thread to own it at the return. */
  lemma Taking(actions: seq<Action>, t: nat, h: nat) returns (more: seq<Action>)
    requires ScanEnded(Run(actions), t) && h in Run(actions).sems.mutexes
    requires Run(actions).sems.mutexes[h].owner != Some(t) && !Abandoned(Run(actions), t, h)
    ensures Others(more, t) && !Available(Run(actions + more + [Proceed(t)]), t, h)
  {
    hide Run;
    var s := Run(actions);
    if s.sems.mutexes[h].owner.Some? {
      more := [];
      ScanStaysEnded(actions, more, t);
      assert actions + more == actions;
    } else if h in s.sems.open {
      var u := SomeThreadNeverCalled(s.threads.Keys, t);
      more := [Request(u, h), Proceed(u)];
      FreeMutexCanBeTaken(actions, t, u, h);
    } else {
      var u :| u != t && s.Of(u) == Requesting(h);
      more := [Proceed(u)];
      RunPush(actions, Proceed(u));
      ScanStaysEnded(actions, more, t);
    }
  }

  /** For a mutex that is still open, the condition is to hold it. */
  lemma WaitAllIsRightOfOpenMutexIff(actions: seq<Action>, t: nat, h: nat)
    requires ScanEnded(Run(actions), t) && h in Run(actions).sems.mutexes && h in Run(actions).sems.open
    ensures AvailableAtReturn(actions, t, h) <==> Run(actions).sems.mutexes[h].owner == Some(t)
  {
    hide Run;
    WaitAllIsRightOfMutexIff(actions, t, h);
  }
}
