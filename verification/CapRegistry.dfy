/**
 The registry object (components/claw_cap/src/claw_cap.c, the global s_runtime): its tables are
 updated in place by loops, one method per locked region or callback, each proved to be the
 corresponding step of CapWorld, and the whole operations composed of them, with calls of other
 tasks in between, each proved to be a run. pc and log are ghosts: they only record.
 */
module CapRegistry {
  import opened Common
  import opened CapVisibility
  import opened CapTypes
  import opened CapRegister
  import opened CapWorld
  import opened CapInvariant
  import opened CapAdvertise
  import opened CapTheorems
  import opened CapDrain
  import opened CapCallbacks
  import opened CapStartAll

  /** Steps of calls, and moves of the operation they run beside. */
  ghost predicate CallsAndMoves(steps: seq<Step>) {
    forall i | 0 <= i < |steps| :: steps[i].Advance? || steps[i].Admit? || steps[i].Finish?
  }

  /** An operation under way never changes how many group slots there are. */
  lemma {:induction false} MovesKeepCount(w: World, steps: seq<Step>)
    requires CallsAndMoves(steps)
    ensures |Run(w, steps).rt.groups| == |w.rt.groups|
  {
    if steps != [] {
      var before := steps[..|steps| - 1];
      MovesKeepCount(w, before);
      MoveKeepsCount(Run(w, before), steps[|steps| - 1]);
    }
  }

  lemma StillDisabled(w: World, steps: seq<Step>)
    requires Inv(w) && w.pc.Idle? && CallsAndMoves(steps)
    ensures forall h | 0 <= h < |w.rt.groups| && w.rt.groups[h].occupied && w.rt.groups[h].state == Disabled ::
              var after := Run(Apply(w, StartAll), steps);
              AtGroup(after, h, Disabled) && NotBegun(after.log, |w.log|, h)
  {
    hide Inv, Apply, Run;
    forall h | 0 <= h < |w.rt.groups| && w.rt.groups[h].occupied && w.rt.groups[h].state == Disabled
      ensures var after := Run(Apply(w, StartAll), steps);
        AtGroup(after, h, Disabled) && NotBegun(after.log, |w.log|, h)
    {
      StartAllSkipsDisabled(w, steps, h);
    }
  }

  lemma OneMove(w: World)
    ensures Run(w, [Advance(true)]) == Apply(w, Advance(true))
  {
    NoSteps(w);
    RunSnoc(w, [], Advance(true));
    assert [] + [Advance(true)] == [Advance(true)];
  }

  lemma MoveKeepsCount(w: World, step: Step)
    requires step.Advance? || step.Admit? || step.Finish?
    ensures |Apply(w, step).rt.groups| == |w.rt.groups|
  {
    hide FindGroup, Busy, StartCallback, StopCallback, Admits;
  }

  /** A callback reported an error since the log had this length. */
  ghost predicate FailedSince(log: seq<Event>, n: nat) {
    exists i | n <= i < |log| :: log[i].Ran? && !log[i].ok
  }

  lemma FailedSnoc(log: seq<Event>, n: nat, cb: Callback, ok: bool)
    requires n <= |log|
    ensures FailedSince(log + [Ran(cb, ok)], n) <==> FailedSince(log, n) || !ok
  {
    var all := log + [Ran(cb, ok)];
    assert all[|log|] == Ran(cb, ok);
    if FailedSince(log, n) {
      var i :| n <= i < |log| && log[i].Ran? && !log[i].ok;
      assert all[i] == log[i];
    }
  }

  class Registry {
    var started: bool
    var groups: seq<GroupSlot>
    var caps: seq<CapSlot>
    var visible: seq<string>
    const sessions: SessionTable
    var calls: map<CallId, nat>   // each call's own variable: the slot its second region will use
    ghost var pc: Pc
    ghost var log: seq<Event>

    ghost function State(): World
      requires sessions.Valid()
      reads this, sessions, sessions.slots
    {
      World(Runtime(started, groups, caps, visible, sessions.Contents()), calls, pc, log)
    }

    ghost predicate Valid()
      reads this, sessions, sessions.slots
    {
      sessions.Valid() && Inv(State())
    }

    constructor ()
      ensures Valid() && fresh(sessions) && fresh(sessions.slots) && State() == EMPTY
    {
      started, groups, caps, visible := false, [], [], [];
      calls, pc, log := map[], Idle, [];
      sessions := new SessionTable();
    }

    // ---- Searches ----

    method FindCapSlot(target: string) returns (index: int)
      ensures FindCap(caps, target) == if index < 0 then None else Some(index)
    {
      if target == "" {
        return -1;
      }
      for i := 0 to |caps|
        invariant forall j | 0 <= j < i :: !Answers(caps[j], target)
      {
        if caps[i].occupied && (caps[i].descriptor.id == target || caps[i].descriptor.name == target) {
          return i;
        }
      }
      return -1;
    }

    method FindGroupSlot(groupId: string) returns (index: int)
      ensures FindGroup(groups, groupId) == if index < 0 then None else Some(index)
    {
      if groupId == "" {
        return -1;
      }
      for i := 0 to |groups|
        invariant forall j | 0 <= j < i :: !IsGroup(groups[j], groupId)
      {
        if groups[i].occupied && groups[i].group.groupId == groupId {
          return i;
        }
      }
      return -1;
    }

    method FindFreeCapSlot() returns (index: int)
      ensures FindFreeCap(caps) == if index < 0 then None else Some(index)
    {
      for i := 0 to |caps|
        invariant forall j | 0 <= j < i :: caps[j].occupied
      {
        if !caps[i].occupied {
          return i;
        }
      }
      return -1;
    }

    method FindFreeGroupSlot() returns (index: int)
      ensures FindFreeGroup(groups) == if index < 0 then None else Some(index)
    {
      for i := 0 to |groups|
        invariant forall j | 0 <= j < i :: groups[j].occupied
      {
        if !groups[i].occupied {
          return i;
        }
      }
      return -1;
    }

    // ---- Validation and capacity ----

    method Conflicts(d: Descriptor) returns (found: bool)
      ensures found == NamesConflict(caps, d)
    {
      for i := 0 to |caps|
        invariant forall j | 0 <= j < i :: !(caps[j].occupied && Clash(caps[j].descriptor, d))
      {
        if caps[i].occupied && (caps[i].descriptor.id == d.id || caps[i].descriptor.name == d.name) {
          return true;
        }
      }
      return false;
    }

    method Validate(group: Group) returns (err: Err)
      requires sessions.Valid()
      ensures err == ValidateGroup(State().rt, group)
    {
      if group.groupId == "" || group.descriptors == [] {
        return InvalidArg;
      }
      var at := FindGroupSlot(group.groupId);
      if at >= 0 {
        return InvalidState;
      }
      var ds := group.descriptors;
      for i := 0 to |ds|
        invariant ValidateFrom(caps, ds, 0) == ValidateFrom(caps, ds, i)
      {
        if ValidateDescriptor(ds[i]) != Err.Ok {
          return InvalidArg;
        }
        var conflict := Conflicts(ds[i]);
        if conflict {
          return InvalidState;
        }
        for j := i + 1 to |ds|
          invariant forall k | i < k < j :: !Clash(ds[i], ds[k])
        {
          if ds[i].id == ds[j].id || ds[i].name == ds[j].name {
            assert Clash(ds[i], ds[j]);
            return InvalidState;
          }
        }
      }
      return Err.Ok;
    }

    method CountCaps() returns (free: nat, used: nat)
      ensures free == CountIf(caps, CapFree) && used == CountIf(caps, CapUsed)
    {
      free, used := 0, 0;
      for i := 0 to |caps|
        invariant free == CountIf(caps[..i], CapFree) && used == CountIf(caps[..i], CapUsed)
      {
        assert caps[..i + 1][..i] == caps[..i];
        if caps[i].occupied {
          used := used + 1;
        } else {
          free := free + 1;
        }
      }
      assert caps[..|caps|] == caps;
    }

    method CountGroups() returns (used: nat)
      ensures used == CountIf(groups, GroupUsed) <= |groups|
    {
      used := 0;
      for i := 0 to |groups|
        invariant used == CountIf(groups[..i], GroupUsed)
      {
        assert groups[..i + 1][..i] == groups[..i];
        if groups[i].occupied {
          used := used + 1;
        }
      }
      assert groups[..|groups|] == groups;
      CountAtMost(groups, GroupUsed);
    }

    method EnsureCapCapacity(extra: nat, canGrow: bool) returns (ok: bool)
      modifies this`caps
      ensures EnsuredCaps(old(caps), extra, canGrow) == if ok then Some(caps) else None
      ensures !ok ==> caps == old(caps)
      ensures ok && extra > 0 ==> |caps| > 0
    {
      var free, used := CountCaps();
      CountAtMost(caps, CapFree);
      if extra == 0 || free >= extra {
        return true;
      }
      if !canGrow {
        return false;
      }
      var capacity := GrownCapacity(|caps|, used + extra);
      if capacity > |caps| {
        caps := caps + seq(capacity - |caps|, i => FREE_CAP);
      }
      return true;
    }

    method EnsureGroupCapacity(extra: nat, canGrow: bool) returns (ok: bool)
      modifies this`groups
      ensures EnsuredGroups(old(groups), extra, canGrow) == if ok then Some(groups) else None
      ensures !ok ==> groups == old(groups)
    {
      if extra == 0 {
        CountAtMost(groups, GroupUsed);
        return true;
      }
      var used := CountGroups();
      if |groups| - used >= extra {
        return true;
      }
      if !canGrow {
        return false;
      }
      var capacity := GrownCapacity(|groups|, used + extra);
      if capacity > |groups| {
        groups := groups + seq(capacity - |groups|, i => FREE_GROUP);
      }
      return true;
    }

    // ---- Walking the members of one group ----

    method SetState(g: nat, state: LifeState)
      requires sessions.Valid() && InRange(State().rt, g)
      modifies this`groups, this`caps
      ensures State() == old(State()).(rt := WithState(old(State()).rt, g, state))
      ensures SameMembership(old(groups), groups) && SameInits(old(caps), caps)
    {
      ghost var before := State().rt;
      StatesApart(before, g, state);
      groups := groups[g := groups[g].(state := state)];
      var members := groups[g].members;
      for k := 0 to |members|
        invariant |caps| == |before.caps| && groups == before.groups[g := before.groups[g].(state := state)]
        invariant forall s | 0 <= s < |caps| ::
                    caps[s] == if s in members[..k] then before.caps[s].(state := state) else before.caps[s]
      {
        caps := caps[members[k] := caps[members[k]].(state := state)];
      }
      assert members[..|members|] == members;
      assert caps == WithState(before, g, state).caps;
    }

    method HasActiveCalls(g: nat) returns (busy: bool)
      requires sessions.Valid() && InRange(State().rt, g)
      ensures busy == Busy(State().rt, g)
    {
      var members := groups[g].members;
      for k := 0 to |members|
        invariant forall j | 0 <= j < k :: caps[members[j]].activeCalls == 0
      {
        if caps[members[k]].activeCalls > 0 {
          return true;
        }
      }
      return false;
    }

    method ClearGroup(g: nat)
      requires sessions.Valid() && InRange(State().rt, g)
      modifies this`groups, this`caps
      ensures State() == old(State()).(rt := Cleared(old(State()).rt, g))
    {
      ghost var before := State().rt;
      var members := groups[g].members;
      for k := 0 to |members|
        invariant |caps| == |before.caps| && groups == before.groups
        invariant forall s | 0 <= s < |caps| :: caps[s] == if s in members[..k] then FREE_CAP else before.caps[s]
      {
        caps := caps[members[k] := FREE_CAP];
      }
      assert members[..|members|] == members;
      groups := groups[g := FREE_GROUP];
      assert caps == Cleared(before, g).caps;
    }

    // ---- Registration ----

    method HandOutSlots(g: nat, ds: seq<Descriptor>) returns (ok: bool, members: seq<nat>)
      requires |caps| > 0
      modifies this`caps
      ensures Filled(ok, caps, members) == Fill(old(caps), g, ds, seq(|ds|, i => 0), 0)
      ensures forall k | 0 <= k < |members| :: members[k] < |caps|
    {
      members := seq(|ds|, i => 0);
      for i := 0 to |ds|
        invariant |members| == |ds| && |caps| == |old(caps)|
        invariant forall k | 0 <= k < |members| :: members[k] < |caps|
        invariant Fill(old(caps), g, ds, seq(|ds|, i => 0), 0) == Fill(caps, g, ds, members, i)
      {
        var s := FindFreeCapSlot();
        if s < 0 {
          return false, members;
        }
        caps := caps[s := caps[s].(occupied := true, descriptor := ds[i], groupSlot := g, state := Registered)];
        members := members[i := s];
      }
      ok := true;
    }

    method RegisterGrown(group: Group, initOk: bool, memberList: bool) returns (err: Err, slot: nat)
      requires sessions.Valid() && |caps| > 0
      modifies this`groups, this`caps
      ensures Registration(err, State().rt, slot) == RegisterInto(old(State()).rt, group, initOk, memberList)
      ensures State() == old(State()).(rt := State().rt)
    {
      var g := FindFreeGroupSlot();
      if g < 0 {
        return NoMem, 0;
      }
      if !memberList {
        return NoMem, g;
      }
      var initCalled := groups[g].groupInitCalled;
      if group.hasInit {
        if !initOk {
          groups := groups[g := FREE_GROUP];
          return Fail, g;
        }
        initCalled := true;
      }
      var ok, members := HandOutSlots(g, group.descriptors);
      groups := groups[g := GroupSlot(true, group, Registered, members, initCalled)];
      if !ok {
        ClearGroup(g);
        return NoMem, g;
      }
      return Err.Ok, g;
    }

    method RegisterRegion(group: Group, initOk: bool, alloc: Allocation) returns (err: Err, slot: nat)
      requires sessions.Valid() && group.descriptors != []
      modifies this`groups, this`caps
      ensures Registration(err, State().rt, slot) == RegisterLocked(old(State()).rt, group, initOk, alloc)
      ensures State() == old(State()).(rt := State().rt)
    {
      var grown := EnsureGroupCapacity(1, alloc.groupTable);
      if !grown {
        return NoMem, 0;
      }
      grown := EnsureCapCapacity(|group.descriptors|, alloc.capTable);
      if !grown {
        return NoMem, 0;
      }
      err, slot := RegisterGrown(group, initOk, alloc.memberList);
    }

    /** claw_cap_register_group up to the point where it may go on to enable the group. */
    method Register(group: Group, initOk: bool, alloc: Allocation) returns (err: Err)
      requires Valid() && pc.Idle?
      modifies this
      ensures Valid() && State() == Apply(old(State()), CapWorld.Register(group, initOk, alloc))
      ensures err == RegisterGroup(old(State()).rt, group, initOk, alloc).err
      ensures started == old(started) && pc == if err == Err.Ok && started then Enabling(group.groupId, Direct) else Idle
    {
      hide GraphOk, CallsOk, StateOk, RegisterLocked, ValidateFrom;
      ghost var before := State();
      AdminStepKeeps(before, CapWorld.Register(group, initOk, alloc));
      RegisterKeepsGraph(before.rt, group, initOk, alloc);
      err := Validate(group);
      if err == Err.Ok {
        var slot;
        err, slot := RegisterRegion(group, initOk, alloc);
        if err == Err.Ok {
          log := log + JoinEvents(groups[slot].members, group.descriptors);
          pc := if started then Enabling(group.groupId, Direct) else Idle;
        }
      }
    }

    // ---- Calls ----

    /** What claw_cap_call decides before it counts the call. */
    method CheckCall(target: string, ctx: Option<Context>) returns (err: Err, slot: int)
      requires sessions.Valid()
      ensures err == NotFound <==> FindCap(caps, target).None?
      ensures err == Err.Ok <==> Admitted(State().rt, target, ctx).Some?
      ensures err == Err.Ok ==> Admitted(State().rt, target, ctx) == Some(slot)
      ensures err in {Err.Ok, NotFound, InvalidState}
      ensures err != NotFound ==> 0 <= slot < |caps| && FindCap(caps, target) == Some(slot) && (err == Err.Ok <==>
                && caps[slot].occupied && (caps[slot].state == LifeState.Registered || caps[slot].state == Started)
                && caps[slot].descriptor.hasExecute
                && (ctx.Some? && ctx.value.caller in {Agent, SubAgent} ==>
                      && (caps[slot].descriptor.kind == Callable || caps[slot].descriptor.kind == Hybrid)
                      && caps[slot].descriptor.callableByLlm
                      && !(ctx.value.caller == SubAgent && caps[slot].descriptor.rootAgentOnly)
                      && GroupVisible(State().rt, caps[slot].groupSlot, ctx.value.session)))
    {
      slot := FindCapSlot(target);
      if slot < 0 {
        return NotFound, slot;
      }
      if ctx.Some? && (ctx.value.caller == Agent || ctx.value.caller == SubAgent) {
        var auth := AuthorizeSlot(slot, ctx);
        if auth != AuthOk {
          return InvalidState, slot;
        }
      } else if !Available(caps[slot]) || !caps[slot].descriptor.hasExecute {
        return InvalidState, slot;
      }
      return Err.Ok, slot;
    }

    /** First locked region of claw_cap_call; slot is the index the second region will use. */
    method AdmitCall(call: CallId, target: string, ctx: Option<Context>) returns (err: Err, slot: int)
      requires Valid() && call !in calls
      modifies this`caps, this`calls
      ensures Valid() && State() == Apply(old(State()), Admit(call, target, ctx))
      ensures err == Err.Ok <==> call in calls
      ensures err == Err.Ok ==> calls[call] == slot
      ensures err == NotFound <==> FindCap(old(caps), target).None?
    {
      hide GraphOk, CallsOk, StateOk;
      ApplyKeeps(State(), Admit(call, target, ctx));
      err, slot := CheckCall(target, ctx);
      if err == Err.Ok {
        caps := caps[slot := caps[slot].(activeCalls := (caps[slot].activeCalls + 1) % WORD)];
        calls := calls[call := slot];
      }
    }

    /** Second locked region of claw_cap_call. */
    method FinishCall(call: CallId, slot: nat)
      requires Valid() && call in calls && calls[call] == slot
      modifies this`caps, this`calls
      ensures Valid() && State() == Apply(old(State()), Finish(call))
      ensures slot < |caps| == |old(caps)| && caps[slot].activeCalls == old(caps[slot].activeCalls) - 1
    {
      GuardsHold(State(), call);
      ApplyKeeps(State(), Finish(call));
      if slot < |caps| && caps[slot].occupied && caps[slot].activeCalls > 0 {
        caps := caps[slot := caps[slot].(activeCalls := caps[slot].activeCalls - 1)];
      }
      calls := calls - {call};
    }

    method AuthorizeSlot(slot: nat, ctx: Option<Context>) returns (auth: Auth)
      requires sessions.Valid() && slot < |caps|
      ensures auth == Authorize(State().rt, caps[slot], ctx)
      ensures auth == AuthOk <==>
                && caps[slot].occupied && (caps[slot].state == LifeState.Registered || caps[slot].state == Started)
                && caps[slot].descriptor.hasExecute
                && (caps[slot].descriptor.kind == Callable || caps[slot].descriptor.kind == Hybrid)
                && caps[slot].descriptor.callableByLlm
                && !(ctx.Some? && ctx.value.caller == SubAgent && caps[slot].descriptor.rootAgentOnly)
                && GroupVisible(State().rt, caps[slot].groupSlot, if ctx.Some? then ctx.value.session else "")
    {
      var session := if ctx.Some? then ctx.value.session else "";
      var caller := if ctx.Some? then ctx.value.caller else System;
      var d := caps[slot].descriptor;
      if !Available(caps[slot]) {
        return NotAvailable;
      }
      if !d.hasExecute {
        return NotExecutable;
      }
      if d.kind != Callable && d.kind != Hybrid {
        return NotCallableKind;
      }
      if !d.callableByLlm {
        return NotLlmCallable;
      }
      if caller == SubAgent && d.rootAgentOnly {
        return RootOnly;
      }
      var shown := GroupIsVisible(caps[slot].groupSlot, session);
      auth := if shown then AuthOk else GroupNotVisible;
    }

    method GroupIsVisible(g: nat, session: string) returns (shown: bool)
      requires sessions.Valid()
      ensures shown == GroupVisible(State().rt, g, session)
    {
      var own := sessions.GroupsOf(session);
      if visible == [] && own.None? {
        return true;
      }
      if g >= |groups| || !groups[g].occupied || groups[g].group.groupId == "" {
        return false;
      }
      var id := groups[g].group.groupId;
      return id in visible || (own.Some? && id in own.value);
    }

    /** The tool list for one context, in slot order. */
    method BuildTools(ctx: Option<Context>) returns (names: seq<string>)
      requires sessions.Valid()
      ensures names == Tools(State().rt, ctx)
    {
      names := [];
      for i := 0 to |caps|
        invariant names == ToolsUpTo(State().rt, ctx, i)
      {
        var auth := AuthorizeSlot(i, ctx);
        if auth == AuthOk {
          names := names + [caps[i].descriptor.name];
        }
      }
    }

    // ---- Visibility ----

    method SetVisibleGroups(ids: seq<string>) returns (err: Err)
      requires Valid()
      modifies this`visible
      ensures Valid() && State() == Apply(old(State()), SetVisible(ids))
      ensures err == if "" in ids then InvalidArg else Err.Ok
    {
      ApplyKeeps(State(), SetVisible(ids));
      if "" in ids {
        return InvalidArg;
      }
      visible := ids;
      return Err.Ok;
    }

    method SetSessionGroups(session: string, ids: seq<string>, canGrow: bool) returns (err: Err)
      requires Valid()
      modifies sessions, sessions.slots
      ensures Valid()
      ensures State() == if err == NoMem then old(State()) else Apply(old(State()), SetSession(session, ids))
      ensures err == InvalidArg <==> session == "" || "" in ids
    {
      hide GraphOk, CallsOk, StateOk;
      ApplyKeeps(State(), SetSession(session, ids));
      err := sessions.Set(session, ids, canGrow);
    }

    // ---- Regions of enable, disable and unregister ----

    lemma MembersInRange(g: nat)
      requires Valid() && g < |groups| && groups[g].occupied
      ensures InRange(State().rt, g)
    {
      var rt := State().rt;
      assert GroupOk(rt, g);
      forall k | 0 <= k < |groups[g].members| ensures groups[g].members[k] < |caps| {
        assert MemberOk(rt, g, k);
      }
    }

    /** The first locked region of an enable, as a step of the state machine. */
    static lemma EnableTurnIs(w: World)
      requires w.pc.Enabling?
      ensures var after := Apply(w, Advance(true));
        var back := w.(pc := Resume(w.pc.from));
        match FindGroup(w.rt.groups, w.pc.groupId)
        case None => after == back
        case Some(g) =>
          && w.rt.groups[g].occupied
          && if w.rt.groups[g].state == Draining || w.rt.groups[g].state == Unloading then after == back
             else if !w.rt.started then after == back.(rt := WithState(w.rt, g, Registered))
             else if w.rt.groups[g].state == Started then after == back
             else after == w.(rt := WithState(w.rt, g, Started), pc := Starting(g, 0, w.pc.from),
                              log := w.log + [EnableBegan(g)])
    {
    }

    /** First locked region of claw_cap_enable_group; callbacks says whether start callbacks follow, on slot g. */
    method EnableRegion(groupId: string) returns (err: Err, callbacks: bool, g: nat)
      requires Valid() && pc.Enabling? && pc.groupId == groupId
      modifies this
      ensures Valid() && State() == Apply(old(State()), Advance(true))
      ensures callbacks ==> pc == Starting(g, 0, old(pc.from)) && err == Err.Ok
      ensures !callbacks ==> pc == Resume(old(pc.from))
      ensures match FindGroup(old(groups), groupId)
              case None => err == NotFound
              case Some(i) => g == i && i < |groups| && err == EnableLocked(old(State()).rt, i).err
      ensures callbacks ==> old(started)
      ensures err == Err.Ok ==> g < |groups| && groups[g].state == if old(started) then Started else Registered
      ensures SameMembership(old(groups), groups) && SameInits(old(caps), caps)
      ensures log == if callbacks then old(log) + [EnableBegan(g)] else old(log)
      ensures callbacks <==> err == Err.Ok && old(started) && g < |old(groups)| && old(groups)[g].state != Started
    {
      hide Inv, Apply, SameMembership, SameInits, WithState;
      SameAsItself(groups, caps);
      StateWritten(State().rt);
      ghost var before := State();
      ApplyKeeps(before, Advance(true));
      EnableTurnIs(before);
      callbacks, g := false, 0;
      var i := FindGroupSlot(groupId);
      if i < 0 {
        pc := Resume(pc.from);
        return NotFound, callbacks, g;
      }
      g := i;
      MembersInRange(g);
      if started && groups[g].state == Started {
        pc := Resume(pc.from);
        return Err.Ok, callbacks, g;
      }
      if groups[g].state == Draining || groups[g].state == Unloading {
        pc := Resume(pc.from);
        return InvalidState, callbacks, g;
      }
      if started {
        SetState(g, Started);
        pc := Starting(g, 0, pc.from);
        log := log + [EnableBegan(g)];
        return Err.Ok, true, g;
      }
      SetState(g, Registered);
      pc := Resume(pc.from);
      return Err.Ok, callbacks, g;
    }

    /** Callback number at of the start phase, with its outcome; failed says the phase ends in a rollback. */
    method StartCallbackAt(g: nat, at: nat, ok: bool) returns (failed: bool)
      requires Valid() && pc.Starting? && pc.g == g && pc.at == at < StartCallbacks(State().rt, g)
      modifies this
      ensures Valid() && State() == Apply(old(State()), Advance(ok))
      ensures failed <==> pc == RollingBack(g, old(pc.from))
      ensures !failed ==> pc == Starting(g, at + 1, old(pc.from))
      ensures groups == old(groups)
    {
      hide GraphOk, CallsOk, StateOk;
      ghost var before := State();
      AdvanceKeeps(before, ok);
      MembersInRange(g);
      failed := false;
      if at == 0 {
        if groups[g].group.hasStart {
          log := log + [Ran(GroupStart(g), ok)];
          failed := !ok;
        }
      } else {
        var m := groups[g].members[(at - 1) / 2];
        if at % 2 == 1 {
          if !caps[m].initCalled && caps[m].descriptor.hasInit {
            log := log + [Ran(Init(m), ok)];
            if ok {
              caps := caps[m := caps[m].(initCalled := true)];
            } else {
              failed := true;
            }
          }
        } else if caps[m].descriptor.hasStart {
          log := log + [Ran(Start(m), ok)];
          failed := !ok;
        }
      }
      pc := if failed then RollingBack(g, pc.from) else Starting(g, at + 1, pc.from);
    }

    /** Last locked region of claw_cap_enable_group: disable again after a failure, confirm otherwise. */
    method EnableEndRegion(g: nat, failed: bool)
      requires Valid() && if failed then pc.RollingBack? && pc.g == g
                          else pc.Starting? && pc.g == g && pc.at == StartCallbacks(State().rt, g)
      modifies this
      ensures Valid() && State() == Apply(old(State()), Advance(true))
      ensures g < |groups| && groups[g].state == if failed then Disabled else Started
      ensures pc == Resume(old(pc.from)) && log == old(log)
    {
      hide GraphOk, CallsOk, StateOk;
      AdvanceKeeps(State(), true);
      MembersInRange(g);
      if failed {
        SetState(g, Disabled);
      }
      pc := Resume(pc.from);
    }

    /** Calls that other tasks begin and end while the lock is free. */
    method ServeCalls(traffic: seq<Step>)
      requires Valid() && OnlyCalls(traffic)
      modifies this`caps, this`calls
      ensures Valid() && State() == Run(old(State()), traffic)
    {
      hide Inv, Apply;
      ghost var before := State();
      assert traffic[..0] == [];
      for i := 0 to |traffic|
        invariant Valid() && State() == Run(before, traffic[..i])
      {
        assert traffic[..i + 1] == traffic[..i] + [traffic[i]];
        RunSnoc(before, traffic[..i], traffic[i]);
        match traffic[i] {
          case Admit(call, target, ctx) =>
            if call in calls {
              NoSecondAdmit(call, target, ctx);
            } else {
              var err, slot := AdmitCall(call, target, ctx);
            }
          case Finish(call) =>
            if call in calls {
              FinishCall(call, calls[call]);
            } else {
              NoSecondFinish(call);
            }
        }
      }
      assert traffic[..|traffic|] == traffic;
    }

    /** A frame address that is in use begins no other call. */
    lemma NoSecondAdmit(call: CallId, target: string, ctx: Option<Context>)
      requires sessions.Valid() && call in calls
      ensures Apply(State(), Admit(call, target, ctx)) == State()
    {
    }

    lemma NoSecondFinish(call: CallId)
      requires sessions.Valid() && call !in calls
      ensures Apply(State(), Finish(call)) == State()
    {
    }

    /** One position of the callback loop: the calls that come and go before it, then its callback. */
    method StartTurn(g: nat, at: nat, ok: bool, traffic: seq<Step>) returns (failed: bool, ghost steps: seq<Step>)
      requires Valid() && pc.Starting? && pc.g == g && pc.at == at < StartCallbacks(State().rt, g)
      requires OnlyCalls(traffic)
      modifies this
      ensures Valid() && State() == Run(old(State()), steps) && CallsAndMoves(steps)
      ensures pc == if failed then RollingBack(g, old(pc.from)) else Starting(g, at + 1, old(pc.from))
      ensures groups == old(groups) && steps == traffic + [Advance(ok)]
    {
      hide Inv, Apply;
      ServeCalls(traffic);
      RunSnoc(old(State()), traffic, Advance(ok));
      failed := StartCallbackAt(g, at, ok);
      steps := traffic + [Advance(ok)];
    }

    /** The last position, where the enable takes the lock again. */
    method EndTurn(g: nat, failed: bool, traffic: seq<Step>) returns (ghost steps: seq<Step>)
      requires Valid() && if failed then pc.RollingBack? && pc.g == g
                          else pc.Starting? && pc.g == g && pc.at == StartCallbacks(State().rt, g)
      requires OnlyCalls(traffic)
      modifies this
      ensures Valid() && State() == Run(old(State()), steps) && CallsAndMoves(steps)
      ensures g < |groups| && groups[g].state == if failed then Disabled else Started
      ensures pc == Resume(old(pc.from)) && log == old(log)
    {
      hide Inv, Apply;
      ServeCalls(traffic);
      RunSnoc(old(State()), traffic, Advance(true));
      EnableEndRegion(g, failed);
      steps := traffic + [Advance(true)];
    }

    /**
     The callback loop of an enable and the region after it; outcome(i) is how its i-th position fares, and
     traffic(i) the calls that come and go before it, traffic of the last position those before the region.
     */
    method RunStartCallbacks(g: nat, outcome: nat -> bool, traffic: nat -> seq<Step>)
      returns (failed: bool, ghost steps: seq<Step>)
      requires Valid() && pc.Starting? && pc.g == g && pc.at == 0
      requires forall i :: OnlyCalls(traffic(i))
      modifies this
      ensures Valid() && pc == Resume(old(pc.from)) && State() == Run(old(State()), steps)
      ensures CallsAndMoves(steps)
      ensures g < |groups| && groups[g].state == if failed then Disabled else Started
      ensures g < |old(groups)| && |old(log)| <= |log| && log[..|old(log)|] == old(log)
      ensures var events := log[|old(log)|..];
        if failed then StartsUpToFailure(events, old(groups)[g], old(caps), g) else AllStarts(events, old(groups)[g], old(caps), g)
    {
      hide GraphOk, CallsOk, StateOk, Apply, Run, StartCallback, StartsSoFar, AllStarts, StartsUpToFailure;
      ghost var before := State();
      ghost var turn;
      steps := [];
      NoSteps(before);
      failed := false;
      var at := 0;
      ghost var ps: seq<nat> := [];
      StartsBegin(before, g);
      while at < 2 * |groups[g].members| + 1 && !failed
        invariant Valid() && State() == Run(before, steps) && CallsAndMoves(steps)
        invariant g < |groups| && 0 <= at <= StartCallbacks(State().rt, g)
        invariant pc == if failed then RollingBack(g, before.pc.from) else Starting(g, at, before.pc.from)
        invariant g < |before.rt.groups| && groups == before.rt.groups
        invariant |before.log| <= |log| && log[..|before.log|] == before.log
        invariant !failed ==> StartsSoFar(before, State(), g, ps)
        invariant failed ==> StartsUpToFailure(log[|before.log|..], before.rt.groups[g], before.rt.caps, g)
        decreases !failed, 2 * |groups[g].members| + 1 - at
      {
        ghost var mid := State();
        StartPhaseFacts(before, mid, g, ps);
        failed, turn := StartTurn(g, at, outcome(at), traffic(at));
        RunConcat(before, steps, turn);
        steps := steps + turn;
        ps := StartsTurn(before, mid, traffic(at), outcome(at), g, ps);
        if !failed { LoggedSoFar(before, State(), g, ps); }
        at := at + 1;
      }
      if !failed { StartPhaseFacts(before, State(), g, ps); }
      turn := EndTurn(g, failed, traffic(at));
      RunConcat(before, steps, turn);
      steps := steps + turn;
    }

    /** An administrator asks for an enable; the operation has yet to take the lock. */
    method BeginEnable(groupId: string)
      requires Valid() && pc.Idle?
      modifies this`pc
      ensures Valid() && pc == Enabling(groupId, Direct) && State() == Apply(old(State()), Enable(groupId))
    {
      AdminStepKeeps(State(), Enable(groupId));
      pc := Enabling(groupId, Direct);
    }

    /**
     claw_cap_enable_group from its first region on, for a caller or for start_all; traffic(0) are the calls
     that come and go before it takes the lock, the others those between callbacks.
     */
    method EnableBody(groupId: string, outcome: nat -> bool, traffic: nat -> seq<Step>)
      returns (err: Err, ghost steps: seq<Step>)
      requires Valid() && pc.Enabling? && pc.groupId == groupId
      requires forall i :: OnlyCalls(traffic(i))
      modifies this
      ensures Valid() && pc == Resume(old(pc.from)) && State() == Run(old(State()), steps)
      ensures CallsAndMoves(steps)
      ensures match FindGroup(old(groups), groupId)
              case None => err == NotFound
              case Some(g) =>
                && g < |groups|
                && (EnableLocked(old(State()).rt, g).err != Err.Ok ==> err == EnableLocked(old(State()).rt, g).err)
                && (EnableLocked(old(State()).rt, g).err == Err.Ok ==> err in {Err.Ok, Fail})
                && (err == Err.Ok ==> groups[g].state == if old(started) then Started else Registered)
                && (err == Fail ==> groups[g].state == Disabled)
                && g < |old(groups)|
                && if old(started) && err in {Err.Ok, Fail} && old(groups)[g].state != Started
                   then StartsLogged(old(log), log, old(groups)[g], old(caps), g, err == Fail)
                   else log == old(log)
    {
      hide Inv, Apply, Run, SameInits, StartsLogged, AllStarts, StartsUpToFailure;
      ghost var before := State();
      ServedInits(before, traffic(0));
      ServeCalls(traffic(0));
      RunSnoc(before, traffic(0), Advance(true));
      ghost var served := caps;
      var callbacks, g;
      err, callbacks, g := EnableRegion(groupId);
      steps := traffic(0) + [Advance(true)];
      if callbacks {
        var failed;
        ghost var more;
        ghost var begun := State();
        failed, more := RunStartCallbacks(g, outcome, (i: nat) => traffic(i + 1));
        RunConcat(before, steps, more);
        steps := steps + more;
        StartsLoggedIs(before.log, begun.log, log, before.rt.groups[g], before.rt.caps,
                       begun.rt.groups[g], served, begun.rt.caps, g, failed);
        err := if failed then Fail else Err.Ok;
      }
    }

    /**
     A whole claw_cap_enable_group, with the calls other tasks make between its regions and callbacks: a run
     of the state machine from rest to rest.
     */
    method EnableGroup(groupId: string, outcome: nat -> bool, traffic: nat -> seq<Step>)
      returns (err: Err, ghost steps: seq<Step>)
      requires Valid() && pc.Idle?
      requires forall i :: OnlyCalls(traffic(i))
      modifies this
      ensures Valid() && pc.Idle? && State() == Run(Apply(old(State()), Enable(groupId)), steps)
      ensures CallsAndMoves(steps)
      ensures match FindGroup(old(groups), groupId)
              case None => err == NotFound
              case Some(g) =>
                && g < |groups|
                && (EnableLocked(old(State()).rt, g).err != Err.Ok ==> err == EnableLocked(old(State()).rt, g).err)
                && (EnableLocked(old(State()).rt, g).err == Err.Ok ==> err in {Err.Ok, Fail})
                && (err == Err.Ok ==> groups[g].state == if old(started) then Started else Registered)
                && (err == Fail ==> groups[g].state == Disabled)
                && g < |old(groups)|
                && if old(started) && err in {Err.Ok, Fail} && old(groups)[g].state != Started
                   then StartsLogged(old(log), log, old(groups)[g], old(caps), g, err == Fail)
                   else log == old(log)
    {
      BeginEnable(groupId);
      err, steps := EnableBody(groupId, outcome, traffic);
    }

    /** A whole claw_cap_register_group: in a started registry it goes on to enable the group. */
    method RegisterAndEnable(group: Group, initOk: bool, alloc: Allocation, outcome: nat -> bool, traffic: nat -> seq<Step>)
      returns (err: Err, ghost steps: seq<Step>)
      requires Valid() && pc.Idle?
      requires forall i :: OnlyCalls(traffic(i))
      modifies this
      ensures Valid() && pc.Idle?
      ensures State() == Run(Apply(old(State()), CapWorld.Register(group, initOk, alloc)), steps) && CallsAndMoves(steps)
      ensures var registered := RegisterGroup(old(State()).rt, group, initOk, alloc).err;
        registered != Err.Ok || !old(started) ==> err == registered && steps == []
    {
      hide Apply, Inv;
      err := Register(group, initOk, alloc);
      steps := [];
      NoSteps(State());
      if err == Err.Ok && started {
        err, steps := EnableBody(group.groupId, outcome, traffic);
      }
    }

    /** The locked region of a disable, as a step of the state machine. */
    static lemma DisableTurnIs(w: World)
      requires w.pc.Disabling?
      ensures var after := Apply(w, Advance(true));
        var back := w.(pc := Resume(w.pc.from));
        match FindGroup(w.rt.groups, w.pc.groupId)
        case None => after == back
        case Some(g) =>
          && w.rt.groups[g].occupied
          && if w.rt.groups[g].state in {Disabled, Draining, Unloading} then after == back
             else after == w.(rt := WithState(w.rt, g, Disabled), pc := Stopping(g, 0, w.pc.from))
    {
    }

    /** First locked region of claw_cap_disable_group. */
    method DisableRegion(groupId: string) returns (err: Err, callbacks: bool, g: nat)
      requires Valid() && pc.Disabling? && pc.groupId == groupId
      modifies this
      ensures Valid() && State() == Apply(old(State()), Advance(true))
      ensures callbacks ==> pc == Stopping(g, 0, old(pc.from)) && err == Err.Ok
      ensures !callbacks ==> pc == Resume(old(pc.from))
      ensures err == match FindGroup(old(groups), groupId)
                     case None => NotFound
                     case Some(i) => DisableLocked(old(State()).rt, i).err
      ensures err == Err.Ok ==> g < |groups| && groups[g].state == Disabled && FindGroup(old(groups), groupId) == Some(g)
      ensures SameMembership(old(groups), groups) && log == old(log)
      ensures callbacks <==> err == Err.Ok && g < |old(groups)| && old(groups)[g].state != Disabled
    {
      hide Inv, Apply, SameMembership, SameInits, WithState;
      SameAsItself(groups, caps);
      StateWritten(State().rt);
      ApplyKeeps(State(), Advance(true));
      DisableTurnIs(State());
      callbacks, g := false, 0;
      var i := FindGroupSlot(groupId);
      if i < 0 {
        pc := Resume(pc.from);
        return NotFound, callbacks, g;
      }
      g := i;
      MembersInRange(g);
      if groups[g].state == Disabled {
        pc := Resume(pc.from);
        return Err.Ok, callbacks, g;
      }
      if groups[g].state == Draining || groups[g].state == Unloading {
        pc := Resume(pc.from);
        return InvalidState, callbacks, g;
      }
      SetState(g, Disabled);
      pc := Stopping(g, 0, pc.from);
      return Err.Ok, true, g;
    }

    /** First locked region of claw_cap_unregister_group: close the group to new calls. */
    method DrainRegion(groupId: string) returns (err: Err, g: nat)
      requires Valid() && pc.Idle?
      modifies this
      ensures Valid() && State() == Apply(old(State()), Unregister(groupId))
      ensures err == Err.Ok <==> pc == DrainWait(g)
      ensures SameMembership(old(groups), groups) && log == old(log)
      ensures match FindGroup(old(groups), groupId)
              case None => err == NotFound && State() == old(State())
              case Some(i) => g == i && i < |old(groups)|
                              && err == if old(groups)[i].state == Unloading then InvalidState else Err.Ok
    {
      hide GraphOk, CallsOk, StateOk, SameMembership, SameInits, WithState;
      SameAsItself(groups, caps);
      StateWritten(State().rt);
      AdminStepKeeps(State(), Unregister(groupId));
      g := 0;
      var i := FindGroupSlot(groupId);
      if i < 0 {
        return NotFound, g;
      }
      g := i;
      MembersInRange(g);
      if groups[g].state == Unloading {
        return InvalidState, g;
      }
      SetState(g, Draining);
      pc := DrainWait(g);
      return Err.Ok, g;
    }

    /** One turn of the wait loop: its locked region and, when the group is busy, the look at the clock. */
    method PollRegion(g: nat, timeRemains: bool) returns (err: Err, done: bool)
      requires Valid() && pc == DrainWait(g)
      modifies this
      ensures Valid() && State() == Apply(old(State()), Advance(timeRemains))
      ensures done <==> pc == Unload(g, 0)
      ensures err == Timeout <==> pc.Idle?
      ensures log == old(log)
    {
      hide GraphOk, CallsOk, StateOk;
      AdvanceKeeps(State(), timeRemains);
      MembersInRange(g);
      var busy := HasActiveCalls(g);
      if !busy {
        SetState(g, Unloading);
        pc := Unload(g, 0);
        return Err.Ok, true;
      }
      if !timeRemains {
        pc := Idle;
        return Timeout, false;
      }
      return Err.Ok, false;
    }

    /** Last locked region of claw_cap_unregister_group. */
    method ClearRegion(g: nat)
      requires Valid() && pc.Unload? && pc.g == g && pc.at == StopCallbacks(State().rt, g)
      modifies this
      ensures Valid() && State() == Apply(old(State()), Advance(true)) && pc.Idle?
      ensures g < |groups| && groups[g] == FREE_GROUP && log == old(log)
    {
      AdvanceKeeps(State(), true);
      MembersInRange(g);
      ClearGroup(g);
      pc := Idle;
    }

    lemma AtStopPhase()
      requires Valid() && (pc.Stopping? || pc.Unload?)
      ensures pc.g < |groups| && groups[pc.g].occupied
    {
      hide GraphOk, CallsOk, StateOk;
    }

    /** One position of a stop phase, as a step of the state machine. */
    static lemma StopTurnIs(w: World, ok: bool)
      requires w.pc.Stopping? || w.pc.Unload?
      requires w.pc.g < |w.rt.groups| && w.pc.at < StopCallbacks(w.rt, w.pc.g)
      ensures var next := if w.pc.Stopping? then Stopping(w.pc.g, w.pc.at + 1, w.pc.from) else Unload(w.pc.g, w.pc.at + 1);
        var cb := StopCallback(w.rt, w.pc.g, w.pc.at);
        Apply(w, Advance(ok)) == w.(pc := next, log := w.log + if cb.Some? then [Ran(cb.value, ok)] else [])
    {
      assert w.log + [] == w.log;
    }

    static lemma StopCallbackIs(rt: Runtime, g: nat, at: nat)
      requires InRange(rt, g) && at < StopCallbacks(rt, g)
      ensures var n := |rt.groups[g].members|;
        StopCallback(rt, g, at) ==
          if at < n then
            (if rt.caps[rt.groups[g].members[n - 1 - at]].descriptor.hasStop
             then Some(Stop(rt.groups[g].members[n - 1 - at])) else None)
          else if rt.groups[g].group.hasStop then Some(GroupStop(g)) else None
    {
    }

    /** Callback number at of a stop phase, in disable or in unregister. Its outcome changes nothing here. */
    method StopCallbackAt(g: nat, at: nat, ok: bool) returns (failed: bool, ghost cb: Option<Callback>)
      requires Valid() && (pc.Stopping? || pc.Unload?) && pc.g == g && pc.at == at < StopCallbacks(State().rt, g)
      modifies this`pc, this`log
      ensures Valid() && State() == Apply(old(State()), Advance(ok))
      ensures pc == if old(pc).Stopping? then Stopping(g, at + 1, old(pc.from)) else Unload(g, at + 1)
      ensures log == old(log) + if cb.Some? then [Ran(cb.value, ok)] else []
      ensures failed <==> cb.Some? && !ok
    {
      hide Inv, Apply, StopCallback;
      AtStopPhase();
      StopTurnIs(State(), ok);
      ApplyKeeps(State(), Advance(ok));
      MembersInRange(g);
      StopCallbackIs(State().rt, g, at);
      assert log + [] == log;
      cb := None;
      var n := |groups[g].members|;
      if at < n {
        var m := groups[g].members[n - 1 - at];
        if caps[m].descriptor.hasStop {
          log := log + [Ran(Stop(m), ok)];
          cb := Some(Stop(m));
          failed := !ok;
        } else {
          failed := false;
        }
      } else if groups[g].group.hasStop {
        log := log + [Ran(GroupStop(g), ok)];
        cb := Some(GroupStop(g));
        failed := !ok;
      } else {
        failed := false;
      }
      pc := if pc.Stopping? then Stopping(g, at + 1, pc.from) else Unload(g, at + 1);
    }

    /** After its last stop callback claw_cap_disable_group returns. */
    method EndDisable(g: nat)
      requires Valid() && pc.Stopping? && pc.g == g && pc.at == StopCallbacks(State().rt, g)
      modifies this`pc
      ensures Valid() && State() == Apply(old(State()), Advance(true))
      ensures pc == Resume(old(pc.from)) && g < |groups| && groups[g].state == Disabled
    {
      hide GraphOk, CallsOk, StateOk;
      AdvanceKeeps(State(), true);
      pc := Resume(pc.from);
    }

    /** An administrator asks for a disable. */
    method BeginDisable(groupId: string)
      requires Valid() && pc.Idle?
      modifies this`pc
      ensures Valid() && pc == Disabling(groupId, Direct) && State() == Apply(old(State()), Disable(groupId))
    {
      AdminStepKeeps(State(), Disable(groupId));
      pc := Disabling(groupId, Direct);
    }

    // ---- Whole operations, with the calls of other tasks in between ----

    /** One position of a stop phase: the calls that come and go before it, then its callback. */
    method StopTurn(g: nat, at: nat, ok: bool, traffic: seq<Step>)
      returns (failed: bool, ghost cb: Option<Callback>, ghost steps: seq<Step>)
      requires Valid() && (pc.Stopping? || pc.Unload?) && pc.g == g && pc.at == at < StopCallbacks(State().rt, g)
      requires OnlyCalls(traffic)
      modifies this
      ensures Valid() && State() == Run(old(State()), steps) && CallsAndMoves(steps) && groups == old(groups)
      ensures pc == if old(pc).Stopping? then Stopping(g, at + 1, old(pc.from)) else Unload(g, at + 1)
      ensures log == old(log) + if cb.Some? then [Ran(cb.value, ok)] else []
      ensures failed <==> cb.Some? && !ok
      ensures steps == traffic + [Advance(ok)]
    {
      hide Inv, Apply;
      ServeCalls(traffic);
      RunSnoc(old(State()), traffic, Advance(ok));
      failed, cb := StopCallbackAt(g, at, ok);
      steps := traffic + [Advance(ok)];
    }

    /** The callback loop of disable and unregister; failed says whether some callback reported an error. */
    method RunStopCallbacks(g: nat, outcome: nat -> bool, traffic: nat -> seq<Step>)
      returns (failed: bool, ghost steps: seq<Step>)
      requires Valid() && (pc.Stopping? || pc.Unload?) && pc.g == g && pc.at == 0
      requires forall i :: OnlyCalls(traffic(i))
      modifies this
      ensures Valid() && State() == Run(old(State()), steps) && CallsAndMoves(steps) && groups == old(groups)
      ensures g < |groups| && var n := StopCallbacks(State().rt, g);
        pc == if old(pc).Stopping? then Stopping(g, n, old(pc.from)) else Unload(g, n)
      ensures failed <==> FailedSince(log, |old(log)|)
      ensures StopsLogged(old(log), log, old(groups)[g], g)
    {
      hide Inv, Apply, Run, StopCallback, StopsSoFar, AllStops;
      ghost var before := State();
      ghost var turn;
      AtStopPhase();
      steps := [];
      NoSteps(before);
      failed := false;
      var at := 0;
      ghost var ks: seq<nat> := [];
      StopsBegin(before, g);
      while at < |groups[g].members| + 1
        invariant Valid() && State() == Run(before, steps) && CallsAndMoves(steps) && groups == old(groups)
        invariant 0 <= at <= StopCallbacks(State().rt, g)
        invariant pc == if before.pc.Stopping? then Stopping(g, at, before.pc.from) else Unload(g, at)
        invariant StopsSoFar(before, State(), g, ks)
        invariant |before.log| <= |log| && log[..|before.log|] == before.log
        invariant |before.log| <= |log| && (failed <==> FailedSince(log, |before.log|))
      {
        ghost var last := log;
        ghost var mid := State();
        var wrong;
        ghost var cb;
        wrong, cb, turn := StopTurn(g, at, outcome(at), traffic(at));
        RunConcat(before, steps, turn);
        steps := steps + turn;
        ks := StopsTurn(before, mid, traffic(at), outcome(at), g, ks);
        assert last + [] == last;
        if cb.Some? {
          FailedSnoc(last, |before.log|, cb.value, outcome(at));
        }
        failed := failed || wrong;
        at := at + 1;
      }
      PhaseFacts(before, State(), g, ks);
    }

    /** claw_cap_disable_group from its first region on, for a caller or for stop_all. */
    method DisableBody(groupId: string, outcome: nat -> bool, traffic: nat -> seq<Step>)
      returns (err: Err, ghost steps: seq<Step>)
      requires Valid() && pc.Disabling? && pc.groupId == groupId
      requires forall i :: OnlyCalls(traffic(i))
      modifies this
      ensures Valid() && pc == Resume(old(pc.from)) && State() == Run(old(State()), steps)
      ensures CallsAndMoves(steps)
      ensures match FindGroup(old(groups), groupId)
              case None => err == NotFound
              case Some(i) => err == DisableLocked(old(State()).rt, i).err
                              && (err == Err.Ok ==> i < |groups| && groups[i].state == Disabled)
                              && i < |old(groups)|
                              && if err == Err.Ok && old(groups)[i].state != Disabled
                                 then StopsLogged(old(log), log, old(groups)[i], i) else log == old(log)
    {
      hide Inv, Apply, Run, StopsLogged, SameInits;
      ghost var before := State();
      ServeCalls(traffic(0));
      RunSnoc(before, traffic(0), Advance(true));
      var callbacks, g;
      err, callbacks, g := DisableRegion(groupId);
      steps := traffic(0) + [Advance(true)];
      if callbacks {
        ghost var more;
        ghost var slot := groups[g];
        var failed;
        failed, more := RunStopCallbacks(g, outcome, (i: nat) => traffic(i + 1));
        SameStopsLogged(before.log, log, before.rt.groups[g], slot, g);
        RunConcat(before, steps, more);
        steps := steps + more;
        RunSnoc(before, steps, Advance(true));
        EndDisable(g);
        steps := steps + [Advance(true)];
      }
    }

    /** A whole claw_cap_disable_group: a failed stop callback does not change the outcome. */
    method DisableGroup(groupId: string, outcome: nat -> bool, traffic: nat -> seq<Step>)
      returns (err: Err, ghost steps: seq<Step>)
      requires Valid() && pc.Idle?
      requires forall i :: OnlyCalls(traffic(i))
      modifies this
      ensures Valid() && pc.Idle? && State() == Run(Apply(old(State()), Disable(groupId)), steps)
      ensures CallsAndMoves(steps)
      ensures match FindGroup(old(groups), groupId)
              case None => err == NotFound
              case Some(i) => err == DisableLocked(old(State()).rt, i).err
                              && (err == Err.Ok ==> i < |groups| && groups[i].state == Disabled)
                              && i < |old(groups)|
                              && if err == Err.Ok && old(groups)[i].state != Disabled
                                 then StopsLogged(old(log), log, old(groups)[i], i) else log == old(log)
    {
      BeginDisable(groupId);
      err, steps := DisableBody(groupId, outcome, traffic);
    }

    /** One turn of the wait loop of unregister, after the calls that come and go before it. */
    method DrainTurn(g: nat, timeRemains: bool, traffic: seq<Step>)
      returns (err: Err, done: bool, ghost steps: seq<Step>)
      requires Valid() && pc == DrainWait(g) && OnlyCalls(traffic)
      modifies this
      ensures Valid() && State() == Run(old(State()), steps) && CallsAndMoves(steps)
      ensures pc == if done then Unload(g, 0) else if timeRemains then DrainWait(g) else Idle
      ensures StillDeparting(old(State()), State(), g)
      ensures CallsOn(State(), g) == Unfinished(CallsOn(old(State()), g), steps)
      ensures done <==> CallsOn(State(), g) == {}
      ensures log == old(log)
    {
      hide Inv, Apply;
      DrainTurnIs(State(), traffic, g, timeRemains);
      ServeCalls(traffic);
      RunSnoc(old(State()), traffic, Advance(timeRemains));
      err, done := PollRegion(g, timeRemains);
      steps := traffic + [Advance(timeRemains)];
    }

    /** The wait loop: until no call is left on the group, or for that many turns. */
    method WaitForCalls(g: nat, patience: nat, traffic: nat -> seq<Step>)
      returns (done: bool, ghost steps: seq<Step>)
      requires Valid() && pc == DrainWait(g)
      requires forall i :: OnlyCalls(traffic(i))
      modifies this
      ensures Valid() && State() == Run(old(State()), steps) && CallsAndMoves(steps)
      ensures pc == if done then Unload(g, 0) else Idle
      ensures StillDeparting(old(State()), State(), g)
      ensures CallsOn(State(), g) == Unfinished(CallsOn(old(State()), g), steps)
      ensures done <==> CallsOn(State(), g) == {}
      ensures log == old(log)
    {
      hide Inv, Apply, Run, CallsOn, Unfinished;
      ghost var before := State();
      ghost var more;
      var err;
      var turn := 0;
      err, done, steps := DrainTurn(g, turn < patience, traffic(turn));
      while !done && turn < patience
        invariant Valid() && State() == Run(before, steps) && CallsAndMoves(steps)
        invariant turn <= patience && log == before.log
        invariant pc == if done then Unload(g, 0) else if turn < patience then DrainWait(g) else Idle
        invariant StillDeparting(before, State(), g)
        invariant CallsOn(State(), g) == Unfinished(CallsOn(before, g), steps)
        invariant done <==> CallsOn(State(), g) == {}
        decreases patience - turn
      {
        turn := turn + 1;
        err, done, more := DrainTurn(g, turn < patience, traffic(turn));
        RunConcat(before, steps, more);
        UnfinishedConcat(CallsOn(before, g), steps, more);
        steps := steps + more;
      }
    }

    /** The rest of unregister once no call is left: the stop callbacks and the release of the slot. */
    method UnloadGroup(g: nat, outcome: nat -> bool, traffic: nat -> seq<Step>)
      returns (err: Err, ghost steps: seq<Step>)
      requires Valid() && pc == Unload(g, 0)
      requires forall i :: OnlyCalls(traffic(i))
      modifies this
      ensures Valid() && pc.Idle? && State() == Run(old(State()), steps) && CallsAndMoves(steps)
      ensures Freed(State(), g)
      ensures g < |old(groups)| && StopsLogged(old(log), log, old(groups)[g], g)
      ensures err == if FailedSince(log, |old(log)|) then Fail else Err.Ok
    {
      hide Inv, Apply, Run;
      ghost var before := State();
      var failed;
      failed, steps := RunStopCallbacks(g, outcome, traffic);
      RunSnoc(before, steps, Advance(true));
      ClearRegion(g);
      steps := steps + [Advance(true)];
      err := if failed then Fail else Err.Ok;
    }

    /**
     A whole claw_cap_unregister_group; patience is the number of turns of the wait loop its timeout allows.
     It ends with the group's slot free, after all calls that were in flight on it have finished, or times
     out with exactly the unfinished ones left and the group draining.
     */
    method UnregisterGroup(groupId: string, patience: nat, outcome: nat -> bool,
                           waiting: nat -> seq<Step>, unloading: nat -> seq<Step>)
      returns (err: Err, ghost steps: seq<Step>)
      requires Valid() && pc.Idle?
      requires forall i :: OnlyCalls(waiting(i)) && OnlyCalls(unloading(i))
      modifies this
      ensures Valid() && pc.Idle? && State() == Run(Apply(old(State()), Unregister(groupId)), steps)
      ensures CallsAndMoves(steps)
      ensures match FindGroup(old(groups), groupId)
              case None => err == NotFound && State() == old(State())
              case Some(g) =>
                && g < |old(groups)| && err in {Err.Ok, Fail, Timeout}
                && var left := Unfinished(CallsOn(old(State()), g), steps);
                   if err == Timeout then
                     AtGroup(State(), g, Draining) && CallsOn(State(), g) == left != {} && log == old(log)
                   else
                     && Freed(State(), g) && left == {} && StopsLogged(old(log), log, old(groups)[g], g)
                     && err == if FailedSince(log, |old(log)|) then Fail else Err.Ok
    {
      hide Inv, Apply, Run, CallsOn, Unfinished, StopsLogged;
      ghost var before := State();
      var g, done;
      NoneUnloading(before);
      err, g := DrainRegion(groupId);
      steps := [];
      NoSteps(State());
      if err != Err.Ok {
        return;
      }
      UnregisterMarks(before, groupId, g);
      SameCallsOn(before, State(), g);
      ghost var marked := State();
      done, steps := WaitForCalls(g, patience, waiting);
      if !done {
        err := Timeout;
        RestsDraining(State(), g);
        return;
      }
      ghost var more;
      ghost var slot := groups[g];
      err, more := UnloadGroup(g, outcome, unloading);
      SameStopsLogged(before.log, log, before.rt.groups[g], slot, g);
      RunConcat(marked, steps, more);
      UnfinishedConcat(CallsOn(marked, g), steps, more);
      UnfinishedNone(more);
      steps := steps + more;
    }

    // ---- start_all and stop_all ----

    method BeginStartAll() returns (walk: bool)
      requires Valid() && pc.Idle?
      modifies this`started, this`pc
      ensures Valid() && State() == Apply(old(State()), StartAll)
      ensures pc == if walk then StartWalk(0) else Idle
      ensures started
    {
      AdminStepKeeps(State(), StartAll);
      if started {
        return false;
      }
      started := true;
      pc := StartWalk(0);
      return true;
    }

    /** Turn i of the start_all loop: skip the slot, hand its group to enable, or end the walk. */
    method StartAllTurn(i: nat) returns (groupId: Option<string>)
      requires Valid() && pc == StartWalk(i)
      modifies this`pc
      ensures Valid() && State() == Apply(old(State()), Advance(true))
      ensures groupId.Some? ==> i < |groups| && pc == Enabling(groupId.value, FromStartAll(i + 1))
      ensures groupId.None? ==> pc == if i < |groups| then StartWalk(i + 1) else Idle
    {
      AdvanceKeeps(State(), true);
      if i >= |groups| {
        pc := Idle;
        return None;
      }
      if !groups[i].occupied || groups[i].state == Disabled {
        pc := StartWalk(i + 1);
        return None;
      }
      groupId := Some(groups[i].group.groupId);
      pc := Enabling(groupId.value, FromStartAll(i + 1));
    }

    method BeginStopAll()
      requires Valid() && pc.Idle?
      modifies this`pc
      ensures Valid() && pc == StopWalk(0) && State() == Apply(old(State()), StopAll)
    {
      AdminStepKeeps(State(), StopAll);
      pc := StopWalk(0);
    }

    /** Turn i of the stop_all loop; the last one clears the started flag. */
    method StopAllTurn(i: nat) returns (groupId: Option<string>)
      requires Valid() && pc == StopWalk(i)
      modifies this`pc, this`started
      ensures Valid() && State() == Apply(old(State()), Advance(true))
      ensures groupId.Some? ==> pc == Disabling(groupId.value, FromStopAll(i + 1))
      ensures groupId.Some? ==> i < |groups| && groups[i].occupied && groups[i].state == Started
                                && groupId.value == groups[i].group.groupId
      ensures groupId.None? ==> pc == if i < |groups| then StopWalk(i + 1) else Idle
      ensures i >= |groups| ==> !started
    {
      hide GraphOk, CallsOk, StateOk;
      AdvanceKeeps(State(), true);
      if i >= |groups| {
        started := false;
        pc := Idle;
        return None;
      }
      if !groups[i].occupied || groups[i].state != Started {
        pc := StopWalk(i + 1);
        return None;
      }
      groupId := Some(groups[i].group.groupId);
      pc := Disabling(groupId.value, FromStopAll(i + 1));
    }

    /** One turn of the start_all loop, with the enable it may call. */
    method StartAllStep(i: nat, outcome: nat -> bool, traffic: nat -> seq<Step>) returns (ghost steps: seq<Step>)
      requires Valid() && pc == StartWalk(i) && i < |groups|
      requires forall k :: OnlyCalls(traffic(k))
      modifies this
      ensures Valid() && pc == StartWalk(i + 1) && State() == Run(old(State()), steps) && CallsAndMoves(steps)
    {
      hide Inv, Apply, Run;
      ghost var before := State();
      OneMove(before);
      var groupId := StartAllTurn(i);
      steps := [Advance(true)];
      if groupId.Some? {
        var err;
        ghost var more;
        err, more := EnableBody(groupId.value, outcome, traffic);
        RunConcat(before, steps, more);
        steps := steps + more;
      }
    }

    /**
     A whole claw_cap_start_all; outcome(i) and traffic(i) are those of the enable of slot i. The loop looks at
     the state of a slot without the lock; no call changes that.
     */
    method StartAllGroups(outcome: nat -> nat -> bool, traffic: nat -> nat -> seq<Step>)
      returns (ghost steps: seq<Step>)
      requires Valid() && pc.Idle?
      requires forall i, k :: OnlyCalls(traffic(i)(k))
      modifies this
      ensures Valid() && pc.Idle? && State() == Run(Apply(old(State()), StartAll), steps) && CallsAndMoves(steps)
      ensures started
      ensures forall h | 0 <= h < |old(groups)| && old(groups)[h].occupied && old(groups)[h].state == Disabled ::
                h < |groups| && groups[h].state == Disabled && NotBegun(log, |old(log)|, h)
      ensures forall g | 0 <= g < |groups| && groups[g].occupied :: groups[g].state in {Started, Disabled, Draining}
    {
      hide Apply, Run, PcOk;
      steps := [];
      ghost var start := State();
      var walk := BeginStartAll();
      ghost var before := State();
      NoSteps(before);
      if walk {
        var i := 0;
        ghost var more;
        while i < |groups|
          invariant 0 <= i <= |groups| == |before.rt.groups|
          invariant Valid() && pc == StartWalk(i) && State() == Run(before, steps) && CallsAndMoves(steps)
        {
          more := StartAllStep(i, outcome(i), traffic(i));
          RunConcat(before, steps, more);
          steps := steps + more;
          MovesKeepCount(before, steps);
          i := i + 1;
        }
        RunSnoc(before, steps, Advance(true));
        WalkIsStarted();
        var groupId := StartAllTurn(i);
        steps := steps + [Advance(true)];
      }
      RestsAllowed(State());
      StillDisabled(start, steps);
    }

    lemma WalkIsStarted()
      requires Valid() && pc.StartWalk?
      ensures started
    {
      hide GraphOk, CallsOk, StateOk;
    }

    /** A group's id leads a search to its slot. */
    lemma FoundWhereItIs(i: nat)
      requires Valid() && i < |groups| && groups[i].occupied
      ensures FindGroup(groups, groups[i].group.groupId) == Some(i)
    {
      hide CallsOk, Stands;
      assert GroupOk(State().rt, i);
      FindGroupIs(groups, groups[i].group.groupId, i);
    }

    /** One turn of the stop_all loop, with the disable it may call, which cannot fail. */
    method StopAllStep(i: nat, outcome: nat -> bool, traffic: nat -> seq<Step>) returns (err: Err, ghost steps: seq<Step>)
      requires Valid() && pc == StopWalk(i) && i < |groups|
      requires forall k :: OnlyCalls(traffic(k))
      modifies this
      ensures Valid() && pc == StopWalk(i + 1) && State() == Run(old(State()), steps) && CallsAndMoves(steps)
      ensures err == Err.Ok
    {
      hide Inv, Apply, Run;
      ghost var before := State();
      OneMove(before);
      var groupId := StopAllTurn(i);
      steps := [Advance(true)];
      err := Err.Ok;
      if groupId.Some? {
        ghost var more;
        FoundWhereItIs(i);
        err, more := DisableBody(groupId.value, outcome, traffic);
        RunConcat(before, steps, more);
        steps := steps + more;
      }
    }

    /** A whole claw_cap_stop_all. It never reports an error: the disables it calls all succeed. */
    method StopAllGroups(outcome: nat -> nat -> bool, traffic: nat -> nat -> seq<Step>)
      returns (err: Err, ghost steps: seq<Step>)
      requires Valid() && pc.Idle?
      requires forall i, k :: OnlyCalls(traffic(i)(k))
      modifies this
      ensures Valid() && pc.Idle? && State() == Run(Apply(old(State()), StopAll), steps) && CallsAndMoves(steps)
      ensures !started && err == Err.Ok
      ensures forall g | 0 <= g < |groups| && groups[g].occupied :: groups[g].state in {Registered, Disabled, Draining}
    {
      hide Apply, Run, PcOk;
      err, steps := Err.Ok, [];
      BeginStopAll();
      ghost var before := State();
      NoSteps(before);
      var i := 0;
      ghost var more;
      while i < |groups|
        invariant 0 <= i <= |groups| == |before.rt.groups|
        invariant Valid() && pc == StopWalk(i) && State() == Run(before, steps) && CallsAndMoves(steps)
        invariant err == Err.Ok
      {
        var disabled;
        disabled, more := StopAllStep(i, outcome(i), traffic(i));
        if disabled != Err.Ok && err == Err.Ok {
          err := Fail;
        }
        RunConcat(before, steps, more);
        steps := steps + more;
        MovesKeepCount(before, steps);
        i := i + 1;
      }
      RunSnoc(before, steps, Advance(true));
      var groupId := StopAllTurn(i);
      steps := steps + [Advance(true)];
      RestsAllowed(State());
    }
  }
}
