/**
 What agents are shown, over whole runs of the registry (components/claw_cap/src/claw_cap.c, lines
 278-306, 340-387, 655-688 and 1279-1389): visibility as it was configured last, and a registry in
 which a tool that is listed cannot be called.
 Main results: VisibleAsConfigured, ShadowedTool.
 */
module CapExposure {
  import opened Common
  import opened CapVisibility
  import opened CapTypes
  import opened CapRegister
  import opened CapWorld
  import opened CapInvariant
  import opened CapTheorems
  import opened CapAdvertise

  // ---- Visibility as configured ----

  /** The session updates among these steps that are accepted, in order. */
  function SessionUpdates(steps: seq<Step>): seq<Update> {
    if steps == [] then []
    else
      var before := SessionUpdates(steps[..|steps| - 1]);
      match steps[|steps| - 1]
      case SetSession(session, groups) =>
        if session == "" || "" in groups then before else before + [Update(session, groups)]
      case _ => before
  }

  /** The global list that was accepted last. */
  function GlobalList(steps: seq<Step>): seq<string> {
    if steps == [] then []
    else match steps[|steps| - 1]
      case SetVisible(groups) => if "" in groups then GlobalList(steps[..|steps| - 1]) else groups
      case _ => GlobalList(steps[..|steps| - 1])
  }

  lemma AdvanceKeepsLists(w: World, ok: bool)
    ensures AdvanceStep(w, ok).rt.sessions == w.rt.sessions && AdvanceStep(w, ok).rt.visible == w.rt.visible
  {
    hide Busy, StartCallback, StopCallback, FindGroup;
    match w.pc
    case Idle =>
    case Enabling(_, _) =>
    case Starting(_, _, _) =>
    case RollingBack(_, _) =>
    case Disabling(_, _) =>
    case Stopping(_, _, _) =>
    case DrainWait(_) =>
    case Unload(_, _) =>
    case StartWalk(_) =>
    case StopWalk(_) =>
  }

  lemma AdminKeepsLists(w: World, step: Step)
    requires Inv(w)
    ensures AdminStep(w, step).rt.sessions == w.rt.sessions && AdminStep(w, step).rt.visible == w.rt.visible
  {
    hide GraphOk, CallsOk, Stands;
    if step.Register? {
      RegisterKeepsGraph(w.rt, step.group, step.initOk, step.alloc);
    }
  }

  /** Only the two configuration steps touch the lists. */
  lemma StepKeepsLists(w: World, step: Step)
    requires Inv(w)
    ensures !step.SetSession? ==> Apply(w, step).rt.sessions == w.rt.sessions
    ensures !step.SetVisible? ==> Apply(w, step).rt.visible == w.rt.visible
  {
    hide AdvanceStep, AdminStep, Inv, Admits, Updated;
    AdvanceKeepsLists(w, true);
    AdvanceKeepsLists(w, false);
    AdminKeepsLists(w, step);
  }

  lemma EmptyStands()
    ensures Inv(EMPTY)
  {
  }

  /** In every run the session rows are those of the accepted updates, and the global list is the last one. */
  lemma {:induction false} ListsAreReplayed(steps: seq<Step>)
    ensures Run(EMPTY, steps).rt.sessions == Replay(SessionUpdates(steps))
    ensures Run(EMPTY, steps).rt.visible == GlobalList(steps)
    ensures forall u | u in SessionUpdates(steps) :: u.id != ""
  {
    EmptyStands();
    hide Inv;
    if steps != [] {
      var before := steps[..|steps| - 1];
      ListsAreReplayed(before);
      RunKeeps(EMPTY, before);
      StepKeepsLists(Run(EMPTY, before), steps[|steps| - 1]);
      var updates := SessionUpdates(before);
      if SessionUpdates(steps) != updates {
        var last := SessionUpdates(steps)[|updates|];
        assert SessionUpdates(steps) == updates + [last] && (updates + [last])[..|updates|] == updates;
      }
    }
  }

  /** Visibility in terms of what was configured: the global list and the session's last list. */
  ghost predicate Shown(global: seq<string>, last: Option<seq<string>>, groupId: string) {
    (global == [] && last.None?) || groupId in global || (last.Some? && groupId in last.value)
  }

  /** After any run a group is visible to a session exactly as that run configured it last. */
  lemma VisibleAsConfigured(steps: seq<Step>, g: nat, session: string)
    requires g < |Run(EMPTY, steps).rt.groups| && Run(EMPTY, steps).rt.groups[g].occupied
    ensures var rt := Run(EMPTY, steps).rt;
      GroupVisible(rt, g, session)
      <==> Shown(GlobalList(steps), LastList(SessionUpdates(steps), session), rt.groups[g].group.groupId)
  {
    var rt := Run(EMPTY, steps).rt;
    RunKeeps(EMPTY, steps);
    assert GroupOk(rt, g);
    ListsAreReplayed(steps);
    TableIsLastList(SessionUpdates(steps), session);
  }

  // ---- A listed tool that cannot be called ----

  const HIDDEN := Descriptor("b", "a", Callable, true, true, false, false, false, true)
  const SHOWN := Descriptor("c", "b", Callable, true, false, false, false, false, true)
  const SHADOWING := Group("g", [HIDDEN, SHOWN], false, false, false)

  /** The registry accepts the group and puts its two descriptors into the first two slots. */
  lemma ShadowingRegisters(w: World)
    requires w == Run(EMPTY, [Register(SHADOWING, true, Allocation(true, true, true))])
    ensures Reachable(w) && |w.rt.caps| >= 2 && w.rt.visible == [] && w.rt.sessions == []
    ensures forall k | 0 <= k < 2 ::
              w.rt.caps[k].occupied && w.rt.caps[k].state == LifeState.Registered
              && w.rt.caps[k].descriptor == SHADOWING.descriptors[k]
  {
    var group := SHADOWING;
    var step := Register(group, true, Allocation(true, true, true));
    assert [step][..0] == [] && Run(EMPTY, []) == EMPTY && w == Apply(EMPTY, step);
    Accepted(group);
    FillsFirstTwo(group);
  }

  lemma Accepted(group: Group)
    requires group == SHADOWING
    ensures ValidateGroup(EMPTY.rt, group) == Err.Ok
  {
    assert "a"[0] == 'a' && "b"[0] == 'b' && "c"[0] == 'c';
    ValidateFromIff([], group.descriptors, 0);
  }

  lemma FillsInOrder(caps: seq<CapSlot>, ds: seq<Descriptor>, zeros: seq<nat>)
    requires |caps| >= 2 && (forall s | 0 <= s < |caps| :: caps[s] == FREE_CAP) && |ds| == |zeros| == 2
    ensures Fill(caps, 0, ds, zeros, 0).caps == caps[0 := Enlist(FREE_CAP, ds[0], 0)][1 := Enlist(FREE_CAP, ds[1], 0)]
  {
    assert FindFreeCap(caps) == Some(0);
    var one := caps[0 := Enlist(FREE_CAP, ds[0], 0)];
    assert FindFreeCap(one) == Some(1);
    var members := zeros[0 := 0];
    var two := one[1 := Enlist(FREE_CAP, ds[1], 0)];
    assert Fill(two, 0, ds, members[1 := 1], 2).caps == two;
    assert Fill(one, 0, ds, members, 1).caps == two;
  }

  lemma FillsFirstTwo(group: Group)
    requires group == SHADOWING
    ensures var r := RegisterLocked(EMPTY.rt, group, true, Allocation(true, true, true));
      && r.err == Err.Ok && |r.rt.caps| >= 2 && r.rt.visible == [] && r.rt.sessions == []
      && forall k | 0 <= k < 2 ::
           r.rt.caps[k].occupied && r.rt.caps[k].state == LifeState.Registered
           && r.rt.caps[k].descriptor == group.descriptors[k]
  {
    CapacitySuffices(EMPTY.rt, group, true);
    var groups := EnsuredGroups([], 1, true).value;
    assert groups == seq(4, i => FREE_GROUP) && FindFreeGroup(groups) == Some(0);
    var caps := EnsuredCaps([], 2, true).value;
    assert EnsuredCaps([], 2, true).Some? && |caps| >= 2 && forall s | 0 <= s < |caps| :: caps[s] == FREE_CAP;
    FillsInOrder(caps, group.descriptors, seq(2, i => 0));
  }

  /**
   A registry with one registered group, in which a tool is listed for a sub-agent whose call by that
   name is refused: the word is the id of an earlier descriptor that is kept for the root agent.
   */
  lemma ShadowedTool()
    ensures var w := Run(EMPTY, [Register(SHADOWING, true, Allocation(true, true, true))]);
      var ctx := Some(Context(SubAgent, ""));
      && Reachable(w) && FromAgent(ctx)
      && SHOWN.name in Tools(w.rt, ctx) && Admitted(w.rt, SHOWN.name, ctx) == None
  {
    var w := Run(EMPTY, [Register(SHADOWING, true, Allocation(true, true, true))]);
    var ctx := Some(Context(SubAgent, ""));
    ShadowingRegisters(w);
    assert Authorize(w.rt, w.rt.caps[1], ctx).AuthOk?;
    ToolsUpToHas(w.rt, ctx, |w.rt.caps|, SHOWN.name);
    assert Answers(w.rt.caps[0], SHOWN.name);
    assert FindCap(w.rt.caps, SHOWN.name) == Some(0);
  }
}
