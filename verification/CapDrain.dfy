/**
 A group on its way out, from the moment unregister marks it to the moment its slot is released
 (components/claw_cap/src/claw_cap.c, lines 1567-1635), over every run: through the wait, a
 timeout, other operations meanwhile and a second unregister.
 Main results: DrainToRelease, TimedOutStaysDraining.
 */
module CapDrain {
  import opened Common
  import opened CapTypes
  import opened CapRegister
  import opened CapWorld
  import opened CapInvariant
  import opened CapTheorems

  ghost predicate Departing(w: World, g: nat) {
    g < |w.rt.groups| && w.rt.groups[g].occupied && w.rt.groups[g].state in {Draining, Unloading}
  }

  ghost predicate Freed(w: World, g: nat) {
    g < |w.rt.groups| && w.rt.groups[g] == FREE_GROUP
  }

  /** Still the same group, still on its way out. */
  ghost predicate StillDeparting(w: World, after: World, g: nat) {
    && Departing(w, g) && Departing(after, g)
    && after.rt.groups[g].group == w.rt.groups[g].group && after.rt.groups[g].members == w.rt.groups[g].members
  }

  lemma EnableKeepsDeparting(w: World, ok: bool, g: nat)
    requires Inv(w) && Departing(w, g) && (w.pc.Enabling? || w.pc.Starting? || w.pc.RollingBack?)
    ensures var after := AdvanceStep(w, ok);
      after.calls == w.calls && StillDeparting(w, after, g)
  {
    hide GraphOk, CallsOk, StateOk, FindGroup, StartCallback;
  }

  lemma DisableKeepsDeparting(w: World, ok: bool, g: nat)
    requires Inv(w) && Departing(w, g) && (w.pc.Disabling? || w.pc.Stopping? || w.pc.StartWalk? || w.pc.StopWalk?)
    ensures var after := AdvanceStep(w, ok);
      after.calls == w.calls && StillDeparting(w, after, g)
  {
    hide GraphOk, CallsOk, StateOk, FindGroup, StopCallback;
  }

  lemma UnloadKeepsDeparting(w: World, ok: bool, g: nat)
    requires Inv(w) && Departing(w, g) && (w.pc.DrainWait? || w.pc.Unload?)
    ensures var after := AdvanceStep(w, ok);
      && after.calls == w.calls
      && (StillDeparting(w, after, g) || (Freed(after, g) && w.pc.Unload? && w.pc.g == g))
  {
    hide GraphOk, CallsOk, StateOk, Busy, StopCallback;
  }

  /** No operation gets a departing group back: it stays so, or its own unload releases it. */
  lemma AdvanceKeepsDeparting(w: World, ok: bool, g: nat)
    requires Inv(w) && Departing(w, g)
    ensures var after := AdvanceStep(w, ok);
      && after.calls == w.calls
      && (StillDeparting(w, after, g) || (Freed(after, g) && w.pc.Unload? && w.pc.g == g))
  {
    hide Inv, EnableMove, StartMove, RollbackMove, DisableMove, StopMove, DrainMove, UnloadMove, StartWalkMove, StopWalkMove;
    match w.pc
    case Idle =>
    case Enabling(_, _) => EnableKeepsDeparting(w, ok, g);
    case Starting(_, _, _) => EnableKeepsDeparting(w, ok, g);
    case RollingBack(_, _) => EnableKeepsDeparting(w, ok, g);
    case DrainWait(_) => UnloadKeepsDeparting(w, ok, g);
    case Unload(_, _) => UnloadKeepsDeparting(w, ok, g);
    case _ => DisableKeepsDeparting(w, ok, g);
  }

  lemma AdminKeepsDeparting(w: World, step: Step, g: nat)
    requires Inv(w) && Departing(w, g)
    ensures var after := AdminStep(w, step);
      after.calls == w.calls && StillDeparting(w, after, g)
  {
    hide StateOk, CallsOk, GraphOk;
    match step
    case Register(group, initOk, alloc) => RegisterKeepsGraph(w.rt, group, initOk, alloc);
    case _ =>
  }

  ghost function FinishedBy(step: Step): set<CallId> {
    if step.Finish? then {step.call} else {}
  }

  lemma CallKeepsDeparting(w: World, step: Step, g: nat)
    requires Inv(w) && Departing(w, g) && (step.Admit? || step.Finish?)
    ensures var after := Apply(w, step);
      && after.rt.groups == w.rt.groups && after.pc == w.pc
      && CallsOn(after, g) == CallsOn(w, g) - FinishedBy(step)
  {
    hide Inv, Admits;
    var after := Apply(w, step);
    if step.Admit? && step.call !in w.calls {
      NoCallWhileDraining(w, step.call, step.target, step.ctx, g);
    }
    assert CallsOn(after, g) == CallsOn(w, g) - FinishedBy(step);
  }

  /**
   One step: the group keeps its calls except one that finishes, or is released with no call left.
   */
  lemma StepKeepsDeparting(w: World, step: Step, g: nat)
    requires Inv(w) && Departing(w, g)
    ensures var after := Apply(w, step);
      || (StillDeparting(w, after, g) && CallsOn(after, g) == CallsOn(w, g) - FinishedBy(step))
      || (Freed(after, g) && CallsOn(w, g) == {} && w.pc.Unload? && w.pc.g == g)
  {
    hide Inv, AdvanceStep, AdminStep;
    match step
    case Admit(call, target, ctx) => CallKeepsDeparting(w, step, g);
    case Finish(call) => CallKeepsDeparting(w, step, g);
    case Advance(ok) =>
      AdvanceKeepsDeparting(w, ok, g);
      if Freed(Apply(w, step), g) {
        QuietUnload(w);
      }
    case SetVisible(groups) =>
    case SetSession(session, groups) =>
    case _ => AdminKeepsDeparting(w, step, g);
  }

  lemma QuietUnload(w: World)
    requires Inv(w) && w.pc.Unload?
    ensures w.pc.g < |w.rt.groups| && CallsOn(w, w.pc.g) == {}
  {
    BusyIffCalls(w, w.pc.g);
  }

  /** At some point of the run the slot of g is free, and by then all these calls have finished. */
  ghost predicate ReleasedAfter(w: World, steps: seq<Step>, g: nat, ids: set<CallId>) {
    exists k | 0 <= k <= |steps| :: Freed(Run(w, steps[..k]), g) && Unfinished(ids, steps[..k]) == {}
  }

  lemma ReleasedLater(w: World, steps: seq<Step>, n: nat, g: nat, ids: set<CallId>)
    requires n <= |steps| && ReleasedAfter(w, steps[..n], g, ids)
    ensures ReleasedAfter(w, steps, g, ids)
  {
    hide Run, Unfinished;
    var k :| 0 <= k <= n && Freed(Run(w, steps[..n][..k]), g) && Unfinished(ids, steps[..n][..k]) == {};
    assert steps[..n][..k] == steps[..k];
  }

  /**
   Over every run a departing group either is still there, the same, with exactly those of its calls
   left that have not finished, or was released, and not before all of them had finished.
   */
  lemma {:induction false} DrainToRelease(w: World, steps: seq<Step>, g: nat)
    requires Inv(w) && Departing(w, g)
    ensures var after := Run(w, steps);
      || (StillDeparting(w, after, g) && CallsOn(after, g) == Unfinished(CallsOn(w, g), steps))
      || ReleasedAfter(w, steps, g, CallsOn(w, g))
  {
    hide Inv, Apply, CallsOn, ReleasedAfter;
    var ids := CallsOn(w, g);
    if steps == [] {
      assert ids == Unfinished(ids, steps);
    } else {
      var n := |steps| - 1;
      var before := steps[..n];
      DrainToRelease(w, before, g);
      if ReleasedAfter(w, before, g, ids) {
        ReleasedLater(w, steps, n, g, ids);
      } else {
        RunKeeps(w, before);
        StepKeepsDeparting(Run(w, before), steps[n], g);
        UnfinishedSnoc(ids, before, steps[n]);
        assert before + [steps[n]] == steps;
        if Freed(Run(w, steps), g) {
          ReleasedNow(w, steps, g, ids);
        }
      }
    }
  }

  lemma ReleasedNow(w: World, steps: seq<Step>, g: nat, ids: set<CallId>)
    requires Freed(Run(w, steps), g) && Unfinished(ids, steps) == {}
    ensures ReleasedAfter(w, steps, g, ids)
  {
    assert steps[..|steps|] == steps;
  }

  /** Unregister marks the group; its calls stay. */
  lemma UnregisterMarks(w: World, groupId: string, g: nat)
    requires Inv(w) && w.pc.Idle? && FindGroup(w.rt.groups, groupId) == Some(g)
    ensures var after := Apply(w, Unregister(groupId));
      && Inv(after) && after.pc == DrainWait(g) && AtGroup(after, g, Draining)
      && g < |w.rt.groups| && after.rt.groups[g].members == w.rt.groups[g].members && after.calls == w.calls
  {
    ApplyKeeps(w, Unregister(groupId));
    assert StateOk(w, g);
  }

  // ---- After a timeout ----

  /** The running operation is not at work on g. */
  ghost predicate Left(w: World, g: nat) {
    w.pc != DrainWait(g) && !(w.pc.Unload? && w.pc.g == g)
  }

  lemma AdvanceStaysLeft(w: World, ok: bool, g: nat)
    requires Left(w, g)
    ensures Left(AdvanceStep(w, ok), g)
  {
    hide FindGroup, Busy, WithState, Cleared, StartCallback, StopCallback;
  }

  lemma StaysLeft(w: World, step: Step, g: nat)
    requires Inv(w) && AtGroup(w, g, Draining) && Left(w, g) && step != Unregister(w.rt.groups[g].group.groupId)
    ensures Left(Apply(w, step), g)
  {
    hide Inv, AdvanceStep, WithState, RegisterGroup;
    if step.Advance? {
      AdvanceStaysLeft(w, step.ok, g);
    }
  }

  lemma StepLeavesAlone(w: World, step: Step, g: nat)
    requires Inv(w) && AtGroup(w, g, Draining) && Left(w, g) && step != Unregister(w.rt.groups[g].group.groupId)
    ensures var after := Apply(w, step);
      AtGroup(after, g, Draining) && Left(after, g) && StillDeparting(w, after, g)
  {
    hide Apply, GraphOk, CallsOk, PcOk;
    StepKeepsDeparting(w, step, g);
    StaysLeft(w, step, g);
    ApplyKeeps(w, step);
    assert StateOk(Apply(w, step), g);
  }

  /**
   A group left draining by a timeout stays there for good, whatever else runs, unless unregister is
   called for it again: no enable, disable, start_all or stop_all gets it back or releases it.
   */
  lemma {:induction false} TimedOutStaysDraining(w: World, steps: seq<Step>, g: nat)
    requires Inv(w) && AtGroup(w, g, Draining) && Left(w, g)
    requires Unregister(w.rt.groups[g].group.groupId) !in steps
    ensures var after := Run(w, steps);
      && AtGroup(after, g, Draining) && Left(after, g) && StillDeparting(w, after, g)
      && CallsOn(after, g) == Unfinished(CallsOn(w, g), steps)
  {
    hide Inv, Apply, CallsOn;
    if steps == [] {
      assert CallsOn(w, g) == Unfinished(CallsOn(w, g), steps);
    } else {
      var n := |steps| - 1;
      var before := steps[..n];
      assert steps == before + [steps[n]];
      TimedOutStaysDraining(w, before, g);
      RunKeeps(w, before);
      StepLeavesAlone(Run(w, before), steps[n], g);
      StepKeepsDeparting(Run(w, before), steps[n], g);
      UnfinishedSnoc(CallsOn(w, g), before, steps[n]);
    }
  }

  // ---- The parts of an unregister, with calls in between ----

  ghost predicate OnlyCalls(steps: seq<Step>) {
    forall i | 0 <= i < |steps| :: steps[i].Admit? || steps[i].Finish?
  }

  lemma {:induction false} CallsServed(w: World, traffic: seq<Step>, g: nat)
    requires Inv(w) && Departing(w, g) && OnlyCalls(traffic)
    ensures var after := Run(w, traffic);
      && Inv(after) && after.rt.groups == w.rt.groups && after.pc == w.pc
      && CallsOn(after, g) == Unfinished(CallsOn(w, g), traffic)
  {
    hide Inv, Apply, CallsOn;
    if traffic == [] {
      assert CallsOn(w, g) == Unfinished(CallsOn(w, g), traffic);
    } else {
      var n := |traffic| - 1;
      var before := traffic[..n];
      assert traffic == before + [traffic[n]];
      CallsServed(w, before, g);
      ApplyKeeps(Run(w, before), traffic[n]);
      CallKeepsDeparting(Run(w, before), traffic[n], g);
      UnfinishedSnoc(CallsOn(w, g), before, traffic[n]);
    }
  }

  /** A turn of the wait loop after these calls: it goes on to unload exactly when they left no call. */
  lemma DrainTurnIs(w: World, traffic: seq<Step>, g: nat, timeRemains: bool)
    requires Inv(w) && w.pc == DrainWait(g) && OnlyCalls(traffic)
    ensures Run(w, traffic).pc == DrainWait(g)
    ensures var after := Apply(Run(w, traffic), Advance(timeRemains));
      && StillDeparting(w, after, g)
      && CallsOn(after, g) == Unfinished(CallsOn(w, g), traffic + [Advance(timeRemains)])
      && after.pc == if CallsOn(after, g) == {} then Unload(g, 0) else if timeRemains then DrainWait(g) else Idle
  {
    hide GraphOk, CallsOk, StateOk;
    CallsServed(w, traffic, g);
    UnfinishedSnoc(CallsOn(w, g), traffic, Advance(timeRemains));
    BusyIffCalls(Run(w, traffic), g);
  }

  lemma UnfinishedConcat(ids: set<CallId>, a: seq<Step>, b: seq<Step>)
    ensures Unfinished(Unfinished(ids, a), b) == Unfinished(ids, a + b)
  {
  }

  lemma UnfinishedNone(steps: seq<Step>)
    ensures Unfinished({}, steps) == {}
  {
  }

  lemma SameCallsOn(w: World, after: World, g: nat)
    requires g < |w.rt.groups| && g < |after.rt.groups|
    requires after.calls == w.calls && after.rt.groups[g].members == w.rt.groups[g].members
    ensures CallsOn(after, g) == CallsOn(w, g)
  {
  }

  lemma RestsDraining(w: World, g: nat)
    requires Inv(w) && w.pc.Idle? && Departing(w, g)
    ensures AtGroup(w, g, Draining)
  {
    assert StateOk(w, g);
  }

  lemma NoneUnloading(w: World)
    requires Inv(w) && w.pc.Idle?
    ensures forall g | 0 <= g < |w.rt.groups| && w.rt.groups[g].occupied :: w.rt.groups[g].state != Unloading
  {
    RestsAllowed(w);
  }

  /** The states groups rest in, as RestingStates has them for reachable worlds. */
  lemma RestsAllowed(w: World)
    requires Inv(w) && w.pc.Idle?
    ensures forall g | 0 <= g < |w.rt.groups| && w.rt.groups[g].occupied ::
              w.rt.groups[g].state in {if w.rt.started then Started else Registered, Disabled, Draining}
  {
    hide GraphOk, CallsOk;
    forall g | 0 <= g < |w.rt.groups| && w.rt.groups[g].occupied
      ensures w.rt.groups[g].state in {if w.rt.started then Started else Registered, Disabled, Draining}
    {
      assert StateOk(w, g);
    }
  }
}
