/**
 Consequences of the registry invariant over whole runs: the call accounting, calls pinning their
 slots, draining, and the states a group can rest in.
 */
module CapTheorems {
  import opened Common
  import opened CapTypes
  import opened CapRegister
  import opened CapWorld
  import opened CapInvariant

  ghost predicate Reachable(w: World) {
    exists steps :: Run(EMPTY, steps) == w
  }

  lemma {:induction false} RunKeeps(w: World, steps: seq<Step>)
    requires Inv(w)
    ensures Inv(Run(w, steps))
  {
    if steps != [] {
      var before := steps[..|steps| - 1];
      RunKeeps(w, before);
      ApplyKeeps(Run(w, before), steps[|steps| - 1]);
    }
  }

  lemma InvariantAlways(w: World)
    requires Reachable(w)
    ensures Inv(w)
  {
    var steps :| Run(EMPTY, steps) == w;
    RunKeeps(EMPTY, steps);
  }

  /**
   In every reachable state an occupied slot is listed by exactly one occupied group, once, points back
   to it, shares its state and has an id and a name no other slot has; occupied groups have ids of
   their own; a free slot, of either kind, is all zero.
   */
  lemma SlotGraphAlways(w: World, s: nat)
    requires Reachable(w) && s < |w.rt.caps|
    ensures !w.rt.caps[s].occupied ==> w.rt.caps[s] == FREE_CAP
    ensures w.rt.caps[s].occupied ==>
              var g := w.rt.caps[s].groupSlot;
              && g < |w.rt.groups| && w.rt.groups[g].occupied && w.rt.caps[s].state == w.rt.groups[g].state
              && (exists k | 0 <= k < |w.rt.groups[g].members| :: w.rt.groups[g].members[k] == s)
              && (forall h, l | 0 <= h < |w.rt.groups| && w.rt.groups[h].occupied
                                && 0 <= l < |w.rt.groups[h].members| && w.rt.groups[h].members[l] == s :: h == g)
              && (forall t | 0 <= t < |w.rt.caps| && t != s && w.rt.caps[t].occupied ::
                    w.rt.caps[t].descriptor.id != w.rt.caps[s].descriptor.id
                    && w.rt.caps[t].descriptor.name != w.rt.caps[s].descriptor.name)
    ensures forall g | 0 <= g < |w.rt.groups| && !w.rt.groups[g].occupied :: w.rt.groups[g] == FREE_GROUP
    ensures forall g, h | 0 <= g < h < |w.rt.groups| && w.rt.groups[g].occupied && w.rt.groups[h].occupied ::
              w.rt.groups[g].group.groupId != w.rt.groups[h].group.groupId
  {
    hide CallsOk, Stands, Reachable;
    InvariantAlways(w);
    assert CapOk(w.rt, s);
    forall g | 0 <= g < |w.rt.groups| && !w.rt.groups[g].occupied ensures w.rt.groups[g] == FREE_GROUP {
      assert GroupOk(w.rt, g);
    }
    if w.rt.caps[s].occupied {
      ListedExactlyOnce(w.rt, s);
      var g := w.rt.caps[s].groupSlot;
      assert GroupOk(w.rt, g);
      var k :| 0 <= k < |w.rt.groups[g].members| && w.rt.groups[g].members[k] == s;
      assert MemberOk(w.rt, g, k);
    }
  }

  /**
   In every reachable state a slot's counter is the number of calls in flight on it, a free slot
   has none, and the decrement that ends a call finds its guards true.
   */
  lemma AccountingAlways(w: World)
    requires Reachable(w)
    ensures forall s | 0 <= s < |w.rt.caps| ::
              && w.rt.caps[s].activeCalls == |CallsAt(w.calls, s)| < WORD
              && (!w.rt.caps[s].occupied ==> CallsAt(w.calls, s) == {})
    ensures forall c | c in w.calls :: DecrementGuards(w.rt, w.calls[c])
  {
    InvariantAlways(w);
    forall c | c in w.calls ensures DecrementGuards(w.rt, w.calls[c]) {
      GuardsHold(w, c);
    }
    forall s | 0 <= s < |w.rt.caps|
      ensures |CallsAt(w.calls, s)| < WORD && (!w.rt.caps[s].occupied ==> CallsAt(w.calls, s) == {})
    {
      assert CapOk(w.rt, s);
      FewCalls(CallsAt(w.calls, s), WORD - 1);
    }
  }

  // ---- A call in flight pins its slot ----

  ghost predicate SameOwner(a: CapSlot, b: CapSlot) {
    b.occupied == a.occupied && b.descriptor == a.descriptor && b.groupSlot == a.groupSlot
  }

  /** The only way out for an occupied slot: the last move of an unload, which zeroes it. */
  ghost predicate Released(w: World, after: World, s: nat)
    requires s < |after.rt.caps|
  {
    && w.pc.Unload? && w.pc.g < |w.rt.groups|
    && s in w.rt.groups[w.pc.g].members && after.rt.caps[s] == FREE_CAP
  }

  lemma AdvanceKeepsOwner(w: World, ok: bool, s: nat)
    requires Inv(w) && s < |w.rt.caps| && w.rt.caps[s].occupied
    ensures var after := AdvanceStep(w, ok);
      && s < |after.rt.caps|
      && (SameOwner(w.rt.caps[s], after.rt.caps[s]) || Released(w, after, s))
  {
    hide GraphOk, CallsOk, StateOk, Busy, FindGroup, StopCallback;
    match w.pc
    case Idle =>
    case Enabling(groupId, from) =>
    case Starting(g, at, from) =>
    case RollingBack(g, from) =>
    case Disabling(groupId, from) =>
    case Stopping(g, at, from) =>
    case DrainWait(g) =>
    case Unload(g, at) =>
    case StartWalk(i) =>
    case StopWalk(i) =>
  }

  lemma AdminKeepsOwner(w: World, step: Step, s: nat)
    requires Inv(w) && s < |w.rt.caps| && w.rt.caps[s].occupied
    ensures var after := AdminStep(w, step);
      s < |after.rt.caps| && SameOwner(w.rt.caps[s], after.rt.caps[s])
  {
    match step
    case Register(group, initOk, alloc) => RegisterKeepsGraph(w.rt, group, initOk, alloc);
    case _ =>
  }

  lemma StepKeepsOwner(w: World, step: Step, s: nat)
    requires Inv(w) && s < |w.rt.caps| && w.rt.caps[s].occupied
    ensures var after := Apply(w, step);
      && s < |after.rt.caps|
      && (SameOwner(w.rt.caps[s], after.rt.caps[s]) || (step.Advance? && Released(w, after, s)))
  {
    hide AdvanceStep, AdminStep, Inv, Admits;
    match step
    case Admit(call, target, ctx) =>
    case Finish(call) =>
    case Advance(ok) => AdvanceKeepsOwner(w, ok, s);
    case SetVisible(groups) =>
    case SetSession(session, groups) =>
    case _ => AdminKeepsOwner(w, step, s);
  }

  /** One step never frees or re-assigns a slot some call still holds. */
  lemma StepPinsSlot(w: World, step: Step, s: nat)
    requires Inv(w) && s < |w.rt.caps| && w.rt.caps[s].occupied && w.rt.caps[s].activeCalls > 0
    ensures s < |Apply(w, step).rt.caps| && SameOwner(w.rt.caps[s], Apply(w, step).rt.caps[s])
  {
    StepKeepsOwner(w, step, s);
    if w.pc.Unload? {
      assert forall k | 0 <= k < |w.rt.groups[w.pc.g].members| :: w.rt.groups[w.pc.g].members[k] != s;
    }
  }

  lemma StepKeepsOtherCalls(w: World, step: Step, call: CallId)
    requires call in w.calls && step != Finish(call)
    ensures call in Apply(w, step).calls && Apply(w, step).calls[call] == w.calls[call]
  {
    match step
    case Register(group, initOk, alloc) =>
    case Advance(ok) =>
    case _ =>
  }

  /** Until a call finishes, its slot stays occupied by the descriptor that admitted it, whatever else runs. */
  lemma {:induction false} CallPinsSlot(w: World, steps: seq<Step>, call: CallId)
    requires Inv(w) && call in w.calls && Finish(call) !in steps
    ensures var after := Run(w, steps);
      && call in after.calls && after.calls[call] == w.calls[call]
      && w.calls[call] < |after.rt.caps|
      && SameOwner(w.rt.caps[w.calls[call]], after.rt.caps[w.calls[call]])
  {
    if steps != [] {
      var before := steps[..|steps| - 1];
      var step := steps[|steps| - 1];
      assert step in steps && forall e | e in before :: e in steps;
      CallPinsSlot(w, before, call);
      RunKeeps(w, before);
      var mid := Run(w, before);
      GuardsHold(mid, call);
      StepPinsSlot(mid, step, mid.calls[call]);
      StepKeepsOtherCalls(mid, step, call);
    }
  }

  /** A slot is freed only by unloading its group, and only when no call is on any member. */
  lemma FreedOnlyAtZero(w: World, step: Step, s: nat)
    requires Inv(w) && s < |w.rt.caps| && w.rt.caps[s].occupied
    ensures s < |Apply(w, step).rt.caps|
    ensures !Apply(w, step).rt.caps[s].occupied ==>
              && w.pc.Unload? && step.Advance? && w.pc.g < |w.rt.groups|
              && s in w.rt.groups[w.pc.g].members && CallsOn(w, w.pc.g) == {}
  {
    hide Apply, GraphOk, CallsOk;
    StepKeepsOwner(w, step, s);
    if !Apply(w, step).rt.caps[s].occupied {
      BusyIffCalls(w, w.pc.g);
    }
  }

  /** While a group is unloading, its stop callbacks included, no call is in flight on it. */
  lemma UnloadingIsQuiet(w: World)
    requires Reachable(w) && w.pc.Unload?
    ensures w.pc.g < |w.rt.groups| && CallsOn(w, w.pc.g) == {}
  {
    InvariantAlways(w);
    BusyIffCalls(w, w.pc.g);
  }

  // ---- Draining ----

  /** Calls in flight on any of these slots. */
  ghost function CallsIn(calls: map<CallId, nat>, members: seq<nat>): set<CallId> {
    set c | c in calls && calls[c] in members
  }

  ghost function CallsOn(w: World, g: nat): set<CallId>
    requires g < |w.rt.groups|
  {
    CallsIn(w.calls, w.rt.groups[g].members)
  }

  ghost function SumActive(caps: seq<CapSlot>, members: seq<nat>): nat {
    if members == [] then 0
    else
      var last := members[|members| - 1];
      SumActive(caps, members[..|members| - 1]) + if last < |caps| then caps[last].activeCalls else 0
  }

  /** The sum of the members' counters is the number of calls in flight on them. */
  lemma {:induction false} SumIsCalls(w: World, members: seq<nat>)
    requires CallsOk(w) && Distinct(members)
    requires forall k | 0 <= k < |members| :: members[k] < |w.rt.caps|
    ensures SumActive(w.rt.caps, members) == |CallsIn(w.calls, members)|
  {
    if members == [] {
      assert CallsIn(w.calls, members) == {};
    } else {
      var front := members[..|members| - 1];
      var last := members[|members| - 1];
      assert members == front + [last];
      SumIsCalls(w, front);
      assert last !in front;
      var a := CallsIn(w.calls, front);
      var b := CallsAt(w.calls, last);
      assert a !! b && CallsIn(w.calls, members) == a + b;
    }
  }

  /** The wait loop's test sees a busy group exactly when some call is in flight on it. */
  lemma BusyIffCalls(w: World, g: nat)
    requires Inv(w) && g < |w.rt.groups| && w.rt.groups[g].occupied
    ensures Busy(w.rt, g) <==> CallsOn(w, g) != {}
    ensures |CallsOn(w, g)| > 0 <==> CallsOn(w, g) != {}
  {
    var members := w.rt.groups[g].members;
    assert GroupOk(w.rt, g);
    if CallsOn(w, g) != {} {
      var c :| c in CallsOn(w, g);
      var k :| 0 <= k < |members| && members[k] == w.calls[c];
      GuardsHold(w, c);
      assert Busy(w.rt, g);
    }
    if Busy(w.rt, g) {
      var k :| 0 <= k < |members| && members[k] < |w.rt.caps| && w.rt.caps[members[k]].activeCalls > 0;
      assert CallsAt(w.calls, members[k]) != {};
      var c :| c in CallsAt(w.calls, members[k]);
      assert c in CallsOn(w, g);
    }
  }

  /** The sum of the group's counters, the quantity the wait loop waits on, is the number of its calls in flight. */
  lemma GroupSumIsCalls(w: World, g: nat)
    requires Inv(w) && g < |w.rt.groups| && w.rt.groups[g].occupied
    ensures SumActive(w.rt.caps, w.rt.groups[g].members) == |CallsOn(w, g)|
  {
    var members := w.rt.groups[g].members;
    assert GroupOk(w.rt, g);
    forall k | 0 <= k < |members| ensures members[k] < |w.rt.caps| {
      assert MemberOk(w.rt, g, k);
    }
    SumIsCalls(w, members);
  }

  /** No caller of any kind gets a call admitted to a member of a draining or unloading group. */
  lemma NoCallWhileDraining(w: World, call: CallId, target: string, ctx: Option<Context>, g: nat)
    requires Inv(w) && g < |w.rt.groups| && Closed(w.rt.groups[g]) && call !in w.calls
    ensures var after := Apply(w, Admit(call, target, ctx));
      call in after.calls ==> after.calls[call] !in w.rt.groups[g].members
  {
    var after := Apply(w, Admit(call, target, ctx));
    if call in after.calls && after.calls[call] in w.rt.groups[g].members {
      var s := after.calls[call];
      AdmitAvoidsClosed(w, call, target, ctx, g, s);
      CallsBelowWord(w.calls, call, s);
      assert false;
    }
  }

  /**
   While unregister waits, a step adds no call to the group; finishing one of its calls removes
   exactly that one, so the sum of the counters never grows.
   */
  lemma DrainShrinks(w: World, step: Step, g: nat)
    requires Inv(w) && w.pc == DrainWait(g) && Apply(w, step).pc == DrainWait(g)
    ensures var after := Apply(w, step);
      && after.rt.groups == w.rt.groups
      && CallsOn(after, g) == CallsOn(w, g) - (if step.Finish? then {step.call} else {})
  {
    hide GraphOk, CallsOk, StateOk;
    var after := Apply(w, step);
    match step
    case Admit(call, target, ctx) =>
      if call !in w.calls {
        NoCallWhileDraining(w, call, target, ctx, g);
      }
      assert CallsOn(after, g) == CallsOn(w, g);
    case Finish(call) =>
      assert CallsOn(after, g) == CallsOn(w, g) - {call};
    case Advance(ok) =>
    case SetVisible(groups) =>
    case SetSession(session, groups) =>
    case _ =>
  }

  ghost predicate WaitsThroughout(w: World, steps: seq<Step>, g: nat) {
    forall k | 0 <= k <= |steps| :: Run(w, steps[..k]).pc == DrainWait(g)
  }

  /** Those of ids that no step of the run finishes. */
  ghost function Unfinished(ids: set<CallId>, steps: seq<Step>): set<CallId> {
    set c | c in ids && Finish(c) !in steps
  }

  lemma UnfinishedSnoc(ids: set<CallId>, before: seq<Step>, step: Step)
    ensures Unfinished(ids, before + [step])
         == Unfinished(ids, before) - (if step.Finish? then {step.call} else {})
  {
    forall c | c in ids
      ensures Finish(c) in before + [step] <==> Finish(c) in before || step == Finish(c)
    {
    }
  }

  lemma WaitsAtEnds(w: World, steps: seq<Step>, g: nat)
    requires WaitsThroughout(w, steps, g)
    ensures w.pc == DrainWait(g) && Run(w, steps).pc == DrainWait(g)
    ensures steps != [] ==> WaitsThroughout(w, steps[..|steps| - 1], g)
  {
    hide Apply;
    assert steps[..|steps|] == steps && steps[..0] == [];
    assert Run(w, steps[..0]).pc == DrainWait(g);
    if steps != [] {
      var before := steps[..|steps| - 1];
      assert forall k | 0 <= k <= |before| :: before[..k] == steps[..k];
    }
  }

  /** As long as the loop waits, the calls left on the group are those it started with that have not finished. */
  lemma {:induction false} DrainProgress(w: World, steps: seq<Step>, g: nat)
    requires Inv(w) && WaitsThroughout(w, steps, g)
    ensures var after := Run(w, steps);
      && Inv(after) && after.pc == DrainWait(g)
      && after.rt.groups == w.rt.groups && g < |w.rt.groups|
      && CallsOn(after, g) == Unfinished(CallsOn(w, g), steps)
  {
    WaitsAtEnds(w, steps, g);
    if steps == [] {
      assert CallsOn(w, g) == Unfinished(CallsOn(w, g), steps);
    } else {
      hide Inv, Apply, WaitsThroughout, CallsOn;
      var before := steps[..|steps| - 1];
      var step := steps[|steps| - 1];
      assert steps == before + [step];
      DrainProgress(w, before, g);
      ApplyKeeps(Run(w, before), step);
      DrainShrinks(Run(w, before), step, g);
      UnfinishedSnoc(CallsOn(w, g), before, step);
    }
  }

  /**
   Once every call that was in flight has finished, the next turn of the loop leaves it: the group
   is unloaded, whether or not time remains. Before that, the loop goes on exactly while time remains.
   */
  lemma DrainEnds(w: World, steps: seq<Step>, g: nat, timeRemains: bool)
    requires Inv(w) && WaitsThroughout(w, steps, g)
    ensures g < |w.rt.groups|
    ensures var after := Apply(Run(w, steps), Advance(timeRemains));
      if forall c | c in CallsOn(w, g) :: Finish(c) in steps then after.pc == Unload(g, 0)
      else after.pc == if timeRemains then DrainWait(g) else Idle
  {
    DrainProgress(w, steps, g);
    var last := Run(w, steps);
    BusyIffCalls(last, g);
    if exists c :: c in CallsOn(w, g) && Finish(c) !in steps {
      var c :| c in CallsOn(w, g) && Finish(c) !in steps;
      assert c in CallsOn(last, g);
    }
  }

  // ---- Resting states ----

  /**
   Between administrative operations: no group is unloading; after start_all none is merely
   registered; before it, and after stop_all, none is started; all members share the group's state.
   */
  lemma RestingStates(w: World, g: nat)
    requires Reachable(w) && w.pc.Idle? && g < |w.rt.groups| && w.rt.groups[g].occupied
    ensures w.rt.groups[g].state != Unloading
    ensures w.rt.started ==> w.rt.groups[g].state in {Started, Disabled, Draining}
    ensures !w.rt.started ==> w.rt.groups[g].state in {Registered, Disabled, Draining}
    ensures forall m | m in w.rt.groups[g].members :: m < |w.rt.caps| && w.rt.caps[m].state == w.rt.groups[g].state
  {
    InvariantAlways(w);
    assert StateOk(w, g) && GroupOk(w.rt, g);
    forall m | m in w.rt.groups[g].members
      ensures m < |w.rt.caps| && w.rt.caps[m].state == w.rt.groups[g].state
    {
      var k :| 0 <= k < |w.rt.groups[g].members| && w.rt.groups[g].members[k] == m;
      assert MemberOk(w.rt, g, k);
    }
  }
}
