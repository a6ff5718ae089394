/**
 * When a semaphore call returns (src/loader/doscalls.rs:1042-1209): what the history of a run
 * says of its handles, its events and its mutexes decides each step of a thread inside a call.
 */
module SemaphoreProgress {
  import opened Wrappers
  import opened Semaphores

  // ----- handles, read off the history -----

  predicate Creates(a: Action) {
    a.CreateMutex? || a.CreateEvent? || a.CreateMux?
  }

  /** The handle a creation after `actions` gets: the creations so far, and one. */
  function NextHandle(actions: seq<Action>): nat {
    if actions == [] then 1 else NextHandle(actions[..|actions| - 1]) + (if Creates(actions[|actions| - 1]) then 1 else 0)
  }

  /** Created and not closed since. */
  predicate IsOpen(actions: seq<Action>, h: nat) {
    actions != []
    && var init, a := actions[..|actions| - 1], actions[|actions| - 1];
       if Creates(a) && h == NextHandle(init) then true else a != Close(h) && IsOpen(init, h)
  }

  /** Created posted, or posted while open. */
  predicate WasPosted(actions: seq<Action>, h: nat) {
    actions != []
    && var init, a := actions[..|actions| - 1], actions[|actions| - 1];
       || WasPosted(init, h)
       || (a == CreateEvent(true) && h == NextHandle(init))
       || (a == Post(h) && IsOpen(init, h))
  }

  /** No thread but `t` has requests on `h` granted and not released. */
  ghost predicate NoneElseHolds(log: seq<Outcome>, t: nat, h: nat) {
    forall u :: u != t ==> Held(log, u, h) == 0
  }

  // ----- what the history says is so -----

  /** A step changes the handles only by creating one or by closing one. */
  lemma StepHandles(s: System, a: Action)
    ensures var s' := Step(s, a);
            && s'.sems.next == s.sems.next + (if Creates(a) then 1 else 0)
            && s'.sems.open == (if Creates(a) then s.sems.open + {s.sems.next}
                                else if a.Close? then s.sems.open - {a.handle} else s.sems.open)
  {
    hide Ready;
  }

  lemma {:induction false} HandlesAre(actions: seq<Action>, h: nat)
    ensures Run(actions).sems.next == NextHandle(actions)
    ensures h in Run(actions).sems.open <==> IsOpen(actions, h)
  {
    hide Step;
    if actions != [] {
      HandlesAre(actions[..|actions| - 1], h);
      StepHandles(Run(actions[..|actions| - 1]), actions[|actions| - 1]);
    }
  }

  /** A step sets an event by creating it posted or by posting it while it is open. */
  lemma StepEvents(s: System, a: Action, h: nat)
    requires Inv(s)
    ensures var e, e' := s.sems.events, Step(s, a).sems.events;
            && (h in e' <==> h in e || (a.CreateEvent? && h == s.sems.next))
            && (h in e' ==> (e'[h] <==>
                  (h in e && e[h]) || (a == CreateEvent(true) && h == s.sems.next) || (a == Post(h) && h in s.sems.open)))
  {
    assert h in s.sems.events ==> h < s.sems.next;
    hide Inv, Ready;
  }

  lemma {:induction false} EventsAre(actions: seq<Action>, h: nat)
    ensures h in Run(actions).sems.events ==> (Run(actions).sems.events[h] <==> WasPosted(actions, h))
    ensures h !in Run(actions).sems.events && h >= NextHandle(actions) ==> !WasPosted(actions, h)
  {
    hide Step, Inv;
    if actions != [] {
      var init := actions[..|actions| - 1];
      EventsAre(init, h);
      HandlesAre(init, h);
      RunKeepsInv(init);
      StepEvents(Run(init), actions[|actions| - 1], h);
      HandlesBelow(init, h);
    }
  }

  lemma HandlesBelow(actions: seq<Action>, h: nat)
    ensures h in Run(actions).sems.events ==> h < NextHandle(actions)
    ensures IsOpen(actions, h) ==> h < NextHandle(actions)
  {
    hide Run;
    HandlesAre(actions, h);
    RunKeepsInv(actions);
    OpenBelow(actions, h);
  }

  lemma {:induction false} OpenBelow(actions: seq<Action>, h: nat)
    ensures IsOpen(actions, h) ==> h < NextHandle(actions)
  {
    if actions != [] {
      OpenBelow(actions[..|actions| - 1], h);
    }
  }

  /** What a scan asks of a record, in terms of the history. */
  lemma ReadyIff(actions: seq<Action>, t: nat, h: nat)
    ensures var s := Run(actions);
            Ready(s.sems, t, h) <==>
              IsOpen(actions, h)
              && ((h in s.sems.events && WasPosted(actions, h)) || (h in s.sems.mutexes && NoneElseHolds(s.log, t, h)))
  {
    hide Run;
    var s := Run(actions);
    HandlesAre(actions, h);
    EventsAre(actions, h);
    RunKeepsInv(actions);
    if h in s.sems.mutexes {
      FreeIff(s, t, h);
    }
  }

  lemma FreeIff(s: System, t: nat, h: nat)
    requires Inv(s) && h in s.sems.mutexes
    ensures NoneElseHolds(s.log, t, h) <==> s.sems.mutexes[h].owner.None? || s.sems.mutexes[h].owner.value == t
  {
    hide AllLawful, ThreadOk, OutcomeOk;
    if s.sems.mutexes[h].owner.Some? {
      var owner := s.sems.mutexes[h].owner.value;
      assert Held(s.log, owner, h) == s.sems.mutexes[h].requests > 0;
    }
  }

  // ----- when a step returns -----

  /**
   * A thread inside a request is granted it at its next step if and only if no other thread
   * holds the mutex: its own requests never stand in its way, and each adds one to its ledger.
   */
  lemma RequestIsGrantedIff(actions: seq<Action>, t: nat, h: nat)
    requires Run(actions).Of(t) == Requesting(h)
    ensures var s, s' := Run(actions), Run(actions + [Proceed(t)]);
            if NoneElseHolds(s.log, t, h)
            then s'.log == s.log + [Granted(t, h)] && s'.Of(t).Running? && Held(s'.log, t, h) == Held(s.log, t, h) + 1
            else s' == s
  {
    hide Run;
    var s := Run(actions);
    RunPush(actions, Proceed(t));
    RunKeepsInv(actions);
    assert ThreadOk(s.sems, s.Of(t));
    FreeIff(s, t, h);
    HeldPush(s.log, Granted(t, h), t, h);
    hide Inv, Held;
  }

  /** A thread that waits for an event returns at its next step if and only if the event was posted. */
  lemma WaitReturnsIff(actions: seq<Action>, t: nat, h: nat)
    requires Run(actions).Of(t) == Waiting(h)
    ensures var s, s' := Run(actions), Run(actions + [Proceed(t)]);
            if WasPosted(actions, h) then s'.log == s.log + [SawEvent(t, h)] && s'.Of(t).Running? else s' == s
  {
    hide Run;
    var s := Run(actions);
    RunPush(actions, Proceed(t));
    RunKeepsInv(actions);
    EventsAre(actions, h);
    assert ThreadOk(s.sems, s.Of(t));
    hide Inv;
  }

  /** A call on a handle that is not open, or is of another kind, returns 6 at once; any other call is entered. */
  lemma CallsAreEntered(actions: seq<Action>, t: nat, h: nat)
    requires Run(actions).Of(t).Running?
    ensures var s := Run(actions);
            var bad := s.log + [BadHandle(t)];
            && (if IsOpen(actions, h) && h in s.sems.mutexes
                then Run(actions + [Request(t, h)]).Of(t) == Requesting(h) && Run(actions + [Release(t, h)]).Of(t) == Releasing(h)
                else Run(actions + [Request(t, h)]).log == bad == Run(actions + [Release(t, h)]).log)
            && (if IsOpen(actions, h) && h in s.sems.events
                then Run(actions + [Wait(t, h)]).Of(t) == Waiting(h)
                else Run(actions + [Wait(t, h)]).log == bad)
            && (if IsOpen(actions, h) && h in s.sems.muxes
                then Run(actions + [WaitMux(t, h)]).Of(t) == Scanning(s.sems.muxes[h], 0, None, true)
                else Run(actions + [WaitMux(t, h)]).log == bad)
  {
    hide Run;
    HandlesAre(actions, h);
    RunPush(actions, Request(t, h));
    RunPush(actions, Release(t, h));
    RunPush(actions, Wait(t, h));
    RunPush(actions, WaitMux(t, h));
  }

  /** A mutex created owned is held once, by thread 0; otherwise nobody holds it. */
  lemma CreatedMutexIsHeld(actions: seq<Action>, owned: bool, t: nat)
    ensures var h, s' := NextHandle(actions), Run(actions + [CreateMutex(owned)]);
            h in s'.sems.mutexes && IsOpen(actions + [CreateMutex(owned)], h) && Held(s'.log, t, h) == if owned && t == 0 then 1 else 0
  {
    hide Run, Held;
    var s, h := Run(actions), NextHandle(actions);
    RunPush(actions, CreateMutex(owned));
    assert (actions + [CreateMutex(owned)])[..|actions|] == actions;
    HandlesAre(actions, h);
    RunKeepsInv(actions);
    UnusedHandle(s, t);
    HeldPush(s.log, Granted(0, h), t, h);
  }

  // ----- a scan that nothing disturbs -----

  function Proceeds(t: nat, n: nat): seq<Action> {
    seq(n, _ => Proceed(t))
  }

  predicate IsReady(s: System, t: nat, mux: Mux, k: nat)
    requires k < |mux.records|
  {
    Ready(s.sems, t, mux.records[k].sem)
  }

  /** `last` is the last ready record among the first `n`, if there is one. */
  predicate LastReady(s: System, t: nat, mux: Mux, n: nat, last: Option<nat>)
    requires n <= |mux.records|
  {
    match last
    case None => forall k :: 0 <= k < n ==> !IsReady(s, t, mux, k)
    case Some(j) => j < n && IsReady(s, t, mux, j) && forall k :: j < k < n ==> !IsReady(s, t, mux, k)
  }

  lemma {:induction false} ScanLooks(actions: seq<Action>, t: nat, n: nat)
    requires var th := Run(actions).Of(t); th.Scanning? && th == Scanning(th.mux, 0, None, true) && n <= |th.mux.records|
    ensures var s, s' := Run(actions), Run(actions + Proceeds(t, n));
            && s'.sems == s.sems && s'.log == s.log && s'.Of(t).Scanning?
            && s'.Of(t).mux == s.Of(t).mux && s'.Of(t).at == n
            && LastReady(s, t, s.Of(t).mux, n, s'.Of(t).ready)
            && (s'.Of(t).all <==> forall k :: 0 <= k < n ==> IsReady(s, t, s.Of(t).mux, k))
  {
    hide Run;
    if n == 0 {
      assert actions + Proceeds(t, 0) == actions;
    } else {
      hide Ready;
      ScanLooks(actions, t, n - 1);
      assert actions + Proceeds(t, n) == (actions + Proceeds(t, n - 1)) + [Proceed(t)];
      RunPush(actions + Proceeds(t, n - 1), Proceed(t));
      assert IsReady(Run(actions), t, Run(actions).Of(t).mux, n - 1)
        <==> Ready(Run(actions).sems, t, Run(actions).Of(t).mux.records[n - 1].sem);
    }
  }

  /**
   * A multi-wait that nothing disturbs returns after one look at each record if and only if
   * all of them are ready, or for a wait for any, one is; it reports the last ready one.
   */
  lemma UndisturbedScanReturnsIff(actions: seq<Action>, t: nat)
    requires var th := Run(actions).Of(t); th.Scanning? && th == Scanning(th.mux, 0, None, true)
    ensures var s := Run(actions);
            var mux := s.Of(t).mux;
            var s' := Run(actions + Proceeds(t, |mux.records| + 1));
            if if mux.waitAll then forall k :: 0 <= k < |mux.records| ==> IsReady(s, t, mux, k)
               else exists k :: 0 <= k < |mux.records| && IsReady(s, t, mux, k)
            then
              s'.Of(t).Running? && |s'.log| == |s.log| + 1 && s'.log[..|s.log|] == s.log
              && var o := s'.log[|s.log|];
                 o.MuxDone? && o.tid == t && o.mux == mux && LastReady(s, t, mux, |mux.records|, o.ready)
            else s'.log == s.log && s'.Of(t) == Scanning(mux, 0, None, true)
  {
    hide Run, Ready;
    var n := |Run(actions).Of(t).mux.records|;
    ScanLooks(actions, t, n);
    assert actions + Proceeds(t, n + 1) == (actions + Proceeds(t, n)) + [Proceed(t)];
    RunPush(actions + Proceeds(t, n), Proceed(t));
  }
}
