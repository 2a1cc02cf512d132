/**
 What every step of the registry keeps: the slot graph, the call accounting, and the position of
 the running administrative operation. Main result: ApplyKeeps.
 */
module CapInvariant {
  import opened Common
  import opened CapVisibility
  import opened CapTypes
  import opened CapRegister
  import opened CapWorld

  // ---- Call accounting ----

  ghost function CallsAt(calls: map<CallId, nat>, s: nat): set<CallId> {
    set c | c in calls && calls[c] == s
  }

  ghost predicate CallsOk(w: World) {
    && (forall c | c in w.calls :: w.calls[c] < |w.rt.caps| && w.rt.caps[w.calls[c]].occupied)
    && (forall s | 0 <= s < |w.rt.caps| :: w.rt.caps[s].activeCalls == |CallsAt(w.calls, s)|)
  }

  /** There are fewer than 2^32 frame addresses, so a 32-bit counter of calls cannot wrap. */
  lemma {:induction false} FewCalls(ids: set<CallId>, bound: nat)
    requires forall c | c in ids :: c <= bound
    ensures |ids| <= bound
    decreases bound
  {
    if bound == 0 {
      assert ids == {};
    } else if bound < WORD {
      var top: CallId := bound;
      var rest := ids - {top};
      FewCalls(rest, bound - 1);
      assert |ids| <= |rest| + 1 by {
        if top in ids { assert ids == rest + {top}; } else { assert ids == rest; }
      }
    } else {
      FewCalls(ids, bound - 1);
    }
  }

  lemma CallsBelowWord(calls: map<CallId, nat>, call: CallId, s: nat)
    requires call !in calls
    ensures |CallsAt(calls, s)| + 1 < WORD
  {
    var with := CallsAt(calls, s) + {call};
    FewCalls(with, WORD - 1);
    assert |with| == |CallsAt(calls, s)| + 1;
  }

  lemma AdmitCounts(calls: map<CallId, nat>, call: CallId, s: nat, t: nat)
    requires call !in calls
    ensures |CallsAt(calls[call := s], t)| == |CallsAt(calls, t)| + if t == s then 1 else 0
  {
    var after := CallsAt(calls[call := s], t);
    if t == s {
      assert after == CallsAt(calls, t) + {call};
    } else {
      assert after == CallsAt(calls, t);
    }
  }

  lemma FinishCounts(calls: map<CallId, nat>, call: CallId, t: nat)
    requires call in calls
    ensures |CallsAt(calls - {call}, t)| + (if t == calls[call] then 1 else 0) == |CallsAt(calls, t)|
  {
    var after := CallsAt(calls - {call}, t);
    if t == calls[call] {
      assert CallsAt(calls, t) == after + {call};
    } else {
      assert after == CallsAt(calls, t);
    }
  }

  lemma AdmitKeepsCalls(w: World, call: CallId, target: string, ctx: Option<Context>)
    requires CallsOk(w)
    ensures CallsOk(AdmitStep(w, call, target, ctx))
  {
    hide Admits;
    var after := AdmitStep(w, call, target, ctx);
    if after != w {
      var s := FindCap(w.rt.caps, target).value;
      CallsBelowWord(w.calls, call, s);
      forall t | 0 <= t < |after.rt.caps| ensures after.rt.caps[t].activeCalls == |CallsAt(after.calls, t)| {
        AdmitCounts(w.calls, call, s, t);
      }
    }
  }

  /** The guards around the decrement never fail. */
  lemma GuardsHold(w: World, call: CallId)
    requires CallsOk(w) && call in w.calls
    ensures DecrementGuards(w.rt, w.calls[call])
  {
    assert call in CallsAt(w.calls, w.calls[call]);
  }

  lemma FinishKeepsCalls(w: World, call: CallId)
    requires CallsOk(w)
    ensures CallsOk(FinishStep(w, call))
  {
    if call in w.calls {
      GuardsHold(w, call);
      var after := FinishStep(w, call);
      forall t | 0 <= t < |after.rt.caps| ensures after.rt.caps[t].activeCalls == |CallsAt(after.calls, t)| {
        FinishCounts(w.calls, call, t);
      }
    }
  }

  /** Tables that keep every counter, free no occupied slot, and add only unused slots keep the accounting. */
  lemma CarryCalls(w: World, after: World)
    requires CallsOk(w) && after.calls == w.calls && |w.rt.caps| <= |after.rt.caps|
    requires forall s | 0 <= s < |w.rt.caps| ::
               after.rt.caps[s].activeCalls == w.rt.caps[s].activeCalls
               && (w.rt.caps[s].occupied && w.rt.caps[s].activeCalls > 0 ==> after.rt.caps[s].occupied)
    requires forall s | |w.rt.caps| <= s < |after.rt.caps| :: after.rt.caps[s].activeCalls == 0
    ensures CallsOk(after)
  {
    forall c | c in after.calls ensures after.rt.caps[after.calls[c]].occupied {
      GuardsHold(w, c);
    }
    forall s | 0 <= s < |after.rt.caps| ensures after.rt.caps[s].activeCalls == |CallsAt(after.calls, s)| {
      if s >= |w.rt.caps| {
        assert CallsAt(after.calls, s) == {};
      }
    }
  }

  // ---- Where the administrative operation stands ----

  ghost predicate MayBeRegistered(w: World, g: nat)
    requires g < |w.rt.groups|
  {
    !w.rt.started || match w.pc
      case StartWalk(i) => i <= g
      case Enabling(groupId, from) => IsGroup(w.rt.groups[g], groupId) || (from.FromStartAll? && from.next <= g)
      case Starting(_, _, from) => from.FromStartAll? && from.next <= g
      case RollingBack(_, from) => from.FromStartAll? && from.next <= g
      case _ => false
  }

  ghost predicate MayBeStarted(w: World, g: nat)
    requires g < |w.rt.groups|
  {
    w.rt.started && match w.pc
      case StopWalk(i) => i <= g
      case Disabling(groupId, from) => from.FromStopAll? ==> IsGroup(w.rt.groups[g], groupId) || from.next <= g
      case Stopping(_, _, from) => from.FromStopAll? ==> from.next <= g
      case _ => true
  }

  ghost predicate StateOk(w: World, g: nat)
    requires g < |w.rt.groups|
  {
    var slot := w.rt.groups[g];
    slot.occupied ==>
      && (slot.state == Unloading ==> w.pc.Unload? && w.pc.g == g)
      && (slot.state == Registered ==> MayBeRegistered(w, g))
      && (slot.state == Started ==> MayBeStarted(w, g))
  }

  ghost predicate AtGroup(w: World, g: nat, state: LifeState) {
    g < |w.rt.groups| && w.rt.groups[g].occupied && w.rt.groups[g].state == state
  }

  ghost predicate OriginOk(w: World, from: Origin) {
    && (from.FromStartAll? ==> 0 < from.next <= |w.rt.groups| && w.rt.started)
    && (from.FromStopAll? ==> 0 < from.next <= |w.rt.groups| && w.rt.started)
  }

  ghost predicate PcOk(w: World) {
    match w.pc
    case Idle => true
    case Enabling(groupId, from) => OriginOk(w, from) && !from.FromStopAll? &&
      (from.FromStartAll? ==> IsGroup(w.rt.groups[from.next - 1], groupId) && groupId != "")
    case Starting(g, at, from) => OriginOk(w, from) && !from.FromStopAll? &&
      AtGroup(w, g, Started) && w.rt.started && at <= StartCallbacks(w.rt, g)
    case RollingBack(g, from) => OriginOk(w, from) && !from.FromStopAll? && AtGroup(w, g, Started) && w.rt.started
    case Disabling(groupId, from) => OriginOk(w, from) && !from.FromStartAll? &&
      (from.FromStopAll? ==> IsGroup(w.rt.groups[from.next - 1], groupId) && groupId != "")
    case Stopping(g, at, from) => OriginOk(w, from) && !from.FromStartAll? &&
      AtGroup(w, g, Disabled) && at <= StopCallbacks(w.rt, g)
    case DrainWait(g) => AtGroup(w, g, Draining)
    case Unload(g, at) => AtGroup(w, g, Unloading) && !Busy(w.rt, g) && at <= StopCallbacks(w.rt, g)
    case StartWalk(i) => i <= |w.rt.groups| && w.rt.started
    case StopWalk(i) => i <= |w.rt.groups|
  }

  ghost predicate Stands(w: World) {
    PcOk(w) && forall g | 0 <= g < |w.rt.groups| :: StateOk(w, g)
  }

  ghost predicate Inv(w: World) {
    GraphOk(w.rt) && CallsOk(w) && Stands(w)
  }

  // ---- Steps that change only counters or visibility ----

  ghost predicate SameGroups(w: World, after: World) {
    && after.rt.groups == w.rt.groups && after.rt.started == w.rt.started && after.pc == w.pc
    && |after.rt.caps| == |w.rt.caps|
  }

  lemma SameGroupsStand(w: World, after: World)
    requires Stands(w) && SameGroups(w, after)
    requires w.pc.Unload? ==> forall m | m in w.rt.groups[w.pc.g].members && m < |w.rt.caps| ::
               after.rt.caps[m].activeCalls <= w.rt.caps[m].activeCalls
    ensures Stands(after)
  {
    forall h | 0 <= h < |after.rt.groups| ensures StateOk(after, h) {
      assert StateOk(w, h);
    }
    if w.pc.Unload? {
      forall k | 0 <= k < |w.rt.groups[w.pc.g].members|
        ensures var m := w.rt.groups[w.pc.g].members[k]; m < |w.rt.caps| ==> after.rt.caps[m].activeCalls == 0
      {
        var m := w.rt.groups[w.pc.g].members[k];
        assert m < |w.rt.caps| ==> w.rt.caps[m].activeCalls == 0;
      }
    }
  }

  lemma AdmitKeeps(w: World, call: CallId, target: string, ctx: Option<Context>)
    requires Inv(w)
    ensures Inv(AdmitStep(w, call, target, ctx))
    ensures SameGroups(w, AdmitStep(w, call, target, ctx))
  {
    var after := AdmitStep(w, call, target, ctx);
    if after != w {
      var s := FindCap(w.rt.caps, target).value;
      var slot := w.rt.caps[s];
      TouchKeepsGraph(w.rt, s, slot.(activeCalls := (slot.activeCalls + 1) % WORD));
      AdmitKeepsCalls(w, call, target, ctx);
      if w.pc.Unload? {
        forall m | m in w.rt.groups[w.pc.g].members
          ensures m < |w.rt.caps| && after.rt.caps[m] == w.rt.caps[m]
        {
          AdmitAvoidsClosed(w, call, target, ctx, w.pc.g, m);
        }
      }
      SameGroupsStand(w, after);
    }
  }

  /** The states in which a group takes no calls. */
  ghost predicate Closed(slot: GroupSlot) {
    slot.occupied && (slot.state == Disabled || slot.state == Draining || slot.state == Unloading)
  }

  /** A call is never admitted to a member of a disabled, draining or unloading group, whoever the caller is. */
  lemma AdmitAvoidsClosed(w: World, call: CallId, target: string, ctx: Option<Context>, g: nat, m: nat)
    requires Inv(w) && g < |w.rt.groups| && Closed(w.rt.groups[g]) && m in w.rt.groups[g].members
    ensures m < |w.rt.caps| && AdmitStep(w, call, target, ctx).rt.caps[m] == w.rt.caps[m]
  {
    assert GroupOk(w.rt, g);
    var k :| 0 <= k < |w.rt.groups[g].members| && w.rt.groups[g].members[k] == m;
    assert MemberOk(w.rt, g, k);
  }

  lemma FinishKeeps(w: World, call: CallId)
    requires Inv(w)
    ensures Inv(FinishStep(w, call))
    ensures SameGroups(w, FinishStep(w, call))
  {
    if call in w.calls {
      GuardsHold(w, call);
      var s := w.calls[call];
      TouchKeepsGraph(w.rt, s, w.rt.caps[s].(activeCalls := w.rt.caps[s].activeCalls - 1));
      FinishKeepsCalls(w, call);
      SameGroupsStand(w, FinishStep(w, call));
    }
  }

  // ---- Steps of the administrative operations ----

  /** A group whose state is set by the operation itself, with every other group left alone. */
  lemma SetStateKeeps(w: World, g: nat, state: LifeState, after: World)
    requires Inv(w) && g < |w.rt.groups| && w.rt.groups[g].occupied
    requires after.rt == WithState(w.rt, g, state) && after.calls == w.calls
    ensures GraphOk(after.rt) && CallsOk(after)
  {
    WithStateKeepsGraph(w.rt, g, state);
    CarryCalls(w, after);
  }

  lemma EnableMoveKeeps(w: World, groupId: string, from: Origin)
    requires Inv(w) && w.pc == Enabling(groupId, from)
    ensures Inv(EnableMove(w, groupId, from))
  {
    hide CapOk, StateOk, PcOk, CallsOk;
    var after := EnableMove(w, groupId, from);
    EnableMoveStands(w, groupId, from);
    match FindGroup(w.rt.groups, groupId)
    case None =>
      CarryCalls(w, after);
    case Some(g) =>
      if after.rt != w.rt {
        SetStateKeeps(w, g, if w.rt.started then Started else Registered, after);
      } else {
        CarryCalls(w, after);
      }
  }

  lemma EnableMoveStands(w: World, groupId: string, from: Origin)
    requires GraphOk(w.rt) && Stands(w) && w.pc == Enabling(groupId, from)
    ensures Stands(EnableMove(w, groupId, from))
  {
    hide CapOk, StateOk, CallsOk, WithState;
    var after := EnableMove(w, groupId, from);
    if from.FromStartAll? {
      FindGroupIs(w.rt.groups, groupId, from.next - 1);
    }
    EnableMovePc(w, groupId, from);
    forall h | 0 <= h < |after.rt.groups| ensures StateOk(after, h) {
      EnableMoveState(w, groupId, from, h);
    }
  }

  lemma EnableMovePc(w: World, groupId: string, from: Origin)
    requires PcOk(w) && w.pc == Enabling(groupId, from)
    ensures PcOk(EnableMove(w, groupId, from)) && |EnableMove(w, groupId, from).rt.groups| == |w.rt.groups|
  {
    hide Busy;
  }

  lemma EnableMoveState(w: World, groupId: string, from: Origin, h: nat)
    requires GraphOk(w.rt) && Stands(w) && w.pc == Enabling(groupId, from) && h < |w.rt.groups|
    requires from.FromStartAll? ==> FindGroup(w.rt.groups, groupId) == Some(from.next - 1)
    ensures StateOk(EnableMove(w, groupId, from), h)
  {
    hide CapOk, CallsOk, Busy;
    assert StateOk(w, h) && GroupOk(w.rt, h);
    if IsGroup(w.rt.groups[h], groupId) {
      FindGroupIs(w.rt.groups, groupId, h);
    }
  }

  lemma StartMoveKeeps(w: World, g: nat, at: nat, from: Origin, ok: bool)
    requires Inv(w) && w.pc == Starting(g, at, from)
    ensures Inv(StartMove(w, g, at, from, ok))
  {
    StartMoveStands(w, g, at, from, ok);
    if at < StartCallbacks(w.rt, g) {
      match StartCallback(w.rt, g, at)
      case None =>
      case Some(cb) =>
        if ok && cb.Init? {
          InitMarkKeeps(w, g, at, StartMove(w, g, at, from, ok));
        }
    }
  }

  lemma InitMarkKeeps(w: World, g: nat, at: nat, after: World)
    requires GraphOk(w.rt) && CallsOk(w) && g < |w.rt.groups| && w.rt.groups[g].occupied && at < StartCallbacks(w.rt, g)
    requires StartCallback(w.rt, g, at).Some? && StartCallback(w.rt, g, at).value.Init?
    requires after.rt == MarkInit(w.rt, StartCallback(w.rt, g, at).value) && after.calls == w.calls
    ensures GraphOk(after.rt) && CallsOk(after)
  {
    hide CapOk, NamesDistinct;
    var s := StartCallback(w.rt, g, at).value.s;
    assert GroupOk(w.rt, g) && MemberOk(w.rt, g, (at - 1) / 2);
    TouchKeepsGraph(w.rt, s, w.rt.caps[s].(initCalled := true));
    CarryCalls(w, after);
  }

  lemma StartMoveStands(w: World, g: nat, at: nat, from: Origin, ok: bool)
    requires Stands(w) && w.pc == Starting(g, at, from)
    ensures Stands(StartMove(w, g, at, from, ok))
  {
    hide Busy;
    var after := StartMove(w, g, at, from, ok);
    forall h | 0 <= h < |after.rt.groups| ensures StateOk(after, h) {
      assert StateOk(w, h);
    }
  }

  lemma RollbackMoveKeeps(w: World, g: nat, from: Origin)
    requires Inv(w) && w.pc == RollingBack(g, from)
    ensures Inv(RollbackMove(w, g, from))
  {
    var after := RollbackMove(w, g, from);
    SetStateKeeps(w, g, Disabled, after);
    forall h | 0 <= h < |after.rt.groups| ensures StateOk(after, h) {
      assert StateOk(w, h);
    }
  }

  lemma DisableMoveKeeps(w: World, groupId: string, from: Origin)
    requires Inv(w) && w.pc == Disabling(groupId, from)
    ensures Inv(DisableMove(w, groupId, from))
  {
    hide CapOk, StateOk, PcOk, CallsOk;
    var after := DisableMove(w, groupId, from);
    DisableMoveStands(w, groupId, from);
    match FindGroup(w.rt.groups, groupId)
    case None =>
      CarryCalls(w, after);
    case Some(g) =>
      if after.rt != w.rt {
        SetStateKeeps(w, g, Disabled, after);
      } else {
        CarryCalls(w, after);
      }
  }

  lemma DisableMoveStands(w: World, groupId: string, from: Origin)
    requires GraphOk(w.rt) && Stands(w) && w.pc == Disabling(groupId, from)
    ensures Stands(DisableMove(w, groupId, from))
  {
    hide CapOk, StateOk, CallsOk, WithState;
    var after := DisableMove(w, groupId, from);
    if from.FromStopAll? {
      FindGroupIs(w.rt.groups, groupId, from.next - 1);
    }
    DisableMovePc(w, groupId, from);
    forall h | 0 <= h < |after.rt.groups| ensures StateOk(after, h) {
      DisableMoveState(w, groupId, from, h);
    }
  }

  lemma DisableMovePc(w: World, groupId: string, from: Origin)
    requires PcOk(w) && w.pc == Disabling(groupId, from)
    ensures PcOk(DisableMove(w, groupId, from)) && |DisableMove(w, groupId, from).rt.groups| == |w.rt.groups|
  {
    hide Busy;
  }

  lemma DisableMoveState(w: World, groupId: string, from: Origin, h: nat)
    requires GraphOk(w.rt) && Stands(w) && w.pc == Disabling(groupId, from) && h < |w.rt.groups|
    requires from.FromStopAll? ==> FindGroup(w.rt.groups, groupId) == Some(from.next - 1)
    ensures StateOk(DisableMove(w, groupId, from), h)
  {
    hide CapOk, CallsOk, Busy;
    assert StateOk(w, h) && GroupOk(w.rt, h);
    if IsGroup(w.rt.groups[h], groupId) {
      FindGroupIs(w.rt.groups, groupId, h);
    }
  }

  lemma StopMoveKeeps(w: World, g: nat, at: nat, from: Origin, ok: bool)
    requires Inv(w) && w.pc == Stopping(g, at, from)
    ensures Inv(StopMove(w, g, at, from, ok))
  {
    var after := StopMove(w, g, at, from, ok);
    forall h | 0 <= h < |after.rt.groups| ensures StateOk(after, h) {
      assert StateOk(w, h);
    }
  }

  lemma DrainMoveKeeps(w: World, g: nat, timeRemains: bool)
    requires Inv(w) && w.pc == DrainWait(g)
    ensures Inv(DrainMove(w, g, timeRemains))
  {
    var after := DrainMove(w, g, timeRemains);
    if !Busy(w.rt, g) {
      SetStateKeeps(w, g, Unloading, after);
      assert !Busy(after.rt, g) by {
        forall k | 0 <= k < |w.rt.groups[g].members|
          ensures var m := w.rt.groups[g].members[k]; m < |after.rt.caps| ==> after.rt.caps[m].activeCalls == 0
        {
          assert w.rt.groups[g].members[k] < |w.rt.caps| ==> w.rt.caps[w.rt.groups[g].members[k]].activeCalls == 0;
        }
      }
    }
    forall h | 0 <= h < |after.rt.groups| ensures StateOk(after, h) {
      assert StateOk(w, h);
    }
  }

  lemma UnloadMoveKeeps(w: World, g: nat, at: nat, ok: bool)
    requires Inv(w) && w.pc == Unload(g, at)
    ensures Inv(UnloadMove(w, g, at, ok))
  {
    hide CapOk, StateOk;
    UnloadMoveStands(w, g, at, ok);
    if at >= StopCallbacks(w.rt, g) {
      ClearKeeps(w, g, UnloadMove(w, g, at, ok));
    }
  }

  lemma ClearKeeps(w: World, g: nat, after: World)
    requires GraphOk(w.rt) && CallsOk(w) && g < |w.rt.groups| && w.rt.groups[g].occupied && !Busy(w.rt, g)
    requires after.rt == Cleared(w.rt, g) && after.calls == w.calls
    ensures GraphOk(after.rt) && CallsOk(after)
  {
    hide CapOk, NamesDistinct;
    ClearedKeepsGraph(w.rt, g);
    forall m | m in w.rt.groups[g].members && m < |w.rt.caps|
      ensures w.rt.caps[m].activeCalls == 0
    {
      var k :| 0 <= k < |w.rt.groups[g].members| && w.rt.groups[g].members[k] == m;
    }
    CarryCalls(w, after);
  }

  lemma UnloadMoveStands(w: World, g: nat, at: nat, ok: bool)
    requires Stands(w) && w.pc == Unload(g, at)
    ensures Stands(UnloadMove(w, g, at, ok))
  {
    var after := UnloadMove(w, g, at, ok);
    forall h | 0 <= h < |after.rt.groups| ensures StateOk(after, h) {
      assert StateOk(w, h);
    }
  }

  lemma StartWalkMoveKeeps(w: World, i: nat)
    requires Inv(w) && w.pc == StartWalk(i)
    ensures Inv(StartWalkMove(w, i))
  {
    var after := StartWalkMove(w, i);
    assert i < |w.rt.groups| ==> GroupOk(w.rt, i);
    forall h | 0 <= h < |after.rt.groups| ensures StateOk(after, h) {
      assert StateOk(w, h) && GroupOk(w.rt, h);
    }
  }

  lemma StopWalkMoveKeeps(w: World, i: nat)
    requires Inv(w) && w.pc == StopWalk(i)
    ensures Inv(StopWalkMove(w, i))
  {
    var after := StopWalkMove(w, i);
    assert i < |w.rt.groups| ==> GroupOk(w.rt, i) && StateOk(w, i);
    forall h | 0 <= h < |after.rt.groups| ensures StateOk(after, h) {
      assert StateOk(w, h) && GroupOk(w.rt, h);
    }
    if after.rt != w.rt {
      StartedFlagKeepsGraph(w.rt, false);
    }
  }

  /** The graph does not depend on the started flag or on visibility. */
  lemma StartedFlagKeepsGraph(rt: Runtime, started: bool)
    requires GraphOk(rt)
    ensures GraphOk(rt.(started := started))
  {
    FieldsKeepGraph(rt, rt.(started := started));
  }

  lemma FieldsKeepGraph(rt: Runtime, after: Runtime)
    requires GraphOk(rt) && after.groups == rt.groups && after.caps == rt.caps && WellFormed(after.sessions)
    ensures GraphOk(after)
  {
    forall s | 0 <= s < |after.caps| ensures CapOk(after, s) {
      assert CapOk(rt, s);
    }
    forall h | 0 <= h < |after.groups| ensures GroupOk(after, h) {
      assert GroupOk(rt, h);
      if after.groups[h].occupied {
        forall k | 0 <= k < |after.groups[h].members| ensures MemberOk(after, h, k) {
          assert MemberOk(rt, h, k);
        }
      }
    }
  }

  lemma RegisterStepKeeps(w: World, group: Group, initOk: bool, alloc: Allocation)
    requires Inv(w) && w.pc.Idle?
    ensures Inv(RegisterStep(w, group, initOk, alloc))
  {
    var r := RegisterGroup(w.rt, group, initOk, alloc);
    var after := RegisterStep(w, group, initOk, alloc);
    RegisterKeepsGraph(w.rt, group, initOk, alloc);
    forall s | 0 <= s < |w.rt.caps| ensures after.rt.caps[s].activeCalls == w.rt.caps[s].activeCalls {
      assert CapOk(w.rt, s) && CapOk(after.rt, s);
    }
    forall s | |w.rt.caps| <= s < |after.rt.caps| ensures after.rt.caps[s].activeCalls == 0 {
      assert CapOk(after.rt, s);
    }
    CarryCalls(w, after);
    forall h | 0 <= h < |after.rt.groups| ensures StateOk(after, h) {
      if h < |w.rt.groups| {
        assert StateOk(w, h);
      }
    }
  }

  lemma UnregisterStepKeeps(w: World, groupId: string)
    requires Inv(w) && w.pc.Idle?
    ensures Inv(UnregisterStep(w, groupId))
  {
    var after := UnregisterStep(w, groupId);
    match FindGroup(w.rt.groups, groupId)
    case None =>
    case Some(g) =>
      if after != w {
        SetStateKeeps(w, g, Draining, after);
        forall h | 0 <= h < |after.rt.groups| ensures StateOk(after, h) {
          assert StateOk(w, h);
        }
      }
  }

  /** An operation begins: it has yet to take the lock. */
  lemma BeginKeeps(w: World, pc: Pc)
    requires Inv(w) && w.pc.Idle?
    requires (pc.Enabling? || pc.Disabling?) ==> pc.from == Direct
    requires pc.Enabling? || pc.Disabling? || pc == StopWalk(0)
    ensures Inv(w.(pc := pc))
  {
    hide GraphOk;
    forall h | 0 <= h < |w.rt.groups| ensures StateOk(w.(pc := pc), h) {
      assert StateOk(w, h);
    }
  }

  lemma StartAllKeeps(w: World)
    requires Inv(w) && w.pc.Idle? && !w.rt.started
    ensures Inv(w.(rt := w.rt.(started := true), pc := StartWalk(0)))
  {
    hide CapOk, GroupOk;
    var after := w.(rt := w.rt.(started := true), pc := StartWalk(0));
    StartedFlagKeepsGraph(w.rt, true);
    forall h | 0 <= h < |after.rt.groups| ensures StateOk(after, h) {
      assert StateOk(w, h);
    }
  }

  lemma AdminStepKeeps(w: World, step: Step)
    requires Inv(w)
    ensures Inv(AdminStep(w, step))
  {
    hide RegisterStep, UnregisterStep, Inv;
    if w.pc.Idle? {
      match step
      case Register(group, initOk, alloc) => RegisterStepKeeps(w, group, initOk, alloc);
      case Unregister(groupId) => UnregisterStepKeeps(w, groupId);
      case Enable(groupId) => BeginKeeps(w, Enabling(groupId, Direct));
      case Disable(groupId) => BeginKeeps(w, Disabling(groupId, Direct));
      case StartAll => if !w.rt.started { StartAllKeeps(w); }
      case StopAll => BeginKeeps(w, StopWalk(0));
      case _ =>
    }
  }

  lemma AdvanceKeeps(w: World, ok: bool)
    requires Inv(w)
    ensures Inv(AdvanceStep(w, ok))
  {
    match w.pc
    case Idle =>
    case Enabling(groupId, from) => EnableMoveKeeps(w, groupId, from);
    case Starting(g, at, from) => StartMoveKeeps(w, g, at, from, ok);
    case RollingBack(g, from) => RollbackMoveKeeps(w, g, from);
    case Disabling(groupId, from) => DisableMoveKeeps(w, groupId, from);
    case Stopping(g, at, from) => StopMoveKeeps(w, g, at, from, ok);
    case DrainWait(g) => DrainMoveKeeps(w, g, ok);
    case Unload(g, at) => UnloadMoveKeeps(w, g, at, ok);
    case StartWalk(i) => StartWalkMoveKeeps(w, i);
    case StopWalk(i) => StopWalkMoveKeeps(w, i);
  }

  /** Every step keeps the invariant. */
  lemma ApplyKeeps(w: World, step: Step)
    requires Inv(w)
    ensures Inv(Apply(w, step))
  {
    hide AdmitStep, FinishStep, AdvanceStep, AdminStep, CapOk, GroupOk;
    match step
    case Admit(call, target, ctx) => AdmitKeeps(w, call, target, ctx);
    case Finish(call) => FinishKeeps(w, call);
    case Advance(ok) => AdvanceKeeps(w, ok);
    case SetVisible(groups) =>
      FieldsKeepGraph(w.rt, w.rt.(visible := groups));
      SameGroupsStand(w, Apply(w, step));
    case SetSession(session, groups) =>
      if session != "" && "" !in groups {
        UpdatedKeepsWellFormed(w.rt.sessions, session, groups);
        FieldsKeepGraph(w.rt, w.rt.(sessions := Updated(w.rt.sessions, session, groups)));
      }
      SameGroupsStand(w, Apply(w, step));
    case _ => AdminStepKeeps(w, step);
  }

}
