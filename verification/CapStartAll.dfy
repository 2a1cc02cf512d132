/**
 start_all and the groups that were disabled (components/claw_cap/src/claw_cap.c, lines 1433-1458):
 it leaves them disabled and does not begin to enable them.
 Main result: StartAllSkipsDisabled.
 */
module CapStartAll {
  import opened Common
  import opened CapTypes
  import opened CapRegister
  import opened CapWorld
  import opened CapInvariant
  import opened CapTheorems

  /** Anything but the start of another administrative operation. */
  ghost predicate Beside(step: Step) {
    step.Advance? || step.Admit? || step.Finish? || step.SetVisible? || step.SetSession?
  }

  ghost predicate NotBegun(log: seq<Event>, n: nat, h: nat) {
    forall i | n <= i < |log| :: log[i] != EnableBegan(h)
  }

  /** A walk of start_all that has left group h, which is disabled, alone so far. */
  ghost predicate LeftAlone(w: World, h: nat, n: nat) {
    && AtGroup(w, h, Disabled) && n <= |w.log| && NotBegun(w.log, n, h)
    && match w.pc
       case Idle => true
       case StartWalk(_) => true
       case Enabling(groupId, from) => from.FromStartAll? && groupId != w.rt.groups[h].group.groupId
       case Starting(g, _, from) => from.FromStartAll? && g != h
       case RollingBack(g, from) => from.FromStartAll? && g != h
       case _ => false
  }

  lemma WalkLeavesAlone(w: World, ok: bool, h: nat, n: nat)
    requires Inv(w) && LeftAlone(w, h, n) && w.pc.StartWalk?
    ensures LeftAlone(AdvanceStep(w, ok), h, n)
  {
    hide CallsOk, StateOk, PcOk;
    var i := w.pc.next;
    if i < |w.rt.groups| && i != h && w.rt.groups[i].occupied {
      assert w.rt.groups[i].group.groupId != w.rt.groups[h].group.groupId;
    }
  }

  lemma EnableLeavesAlone(w: World, ok: bool, h: nat, n: nat)
    requires Inv(w) && LeftAlone(w, h, n) && (w.pc.Enabling? || w.pc.RollingBack?)
    ensures LeftAlone(AdvanceStep(w, ok), h, n)
  {
    hide GraphOk, CallsOk, StateOk, PcOk;
  }

  lemma StartLeavesAlone(w: World, ok: bool, h: nat, n: nat)
    requires Inv(w) && LeftAlone(w, h, n) && w.pc.Starting?
    ensures LeftAlone(AdvanceStep(w, ok), h, n)
  {
    hide GraphOk, CallsOk, StateOk, PcOk, StartCallback;
  }

  lemma BesideLeavesAlone(w: World, step: Step, h: nat, n: nat)
    requires Inv(w) && LeftAlone(w, h, n) && Beside(step)
    ensures LeftAlone(Apply(w, step), h, n)
  {
    hide Inv, AdvanceStep, Admits, LeftAlone;
    match step
    case Advance(ok) =>
      NowhereElse(w, h, n);
      if w.pc.StartWalk? {
        WalkLeavesAlone(w, ok, h, n);
      } else if w.pc.Starting? {
        StartLeavesAlone(w, ok, h, n);
      } else if !w.pc.Idle? {
        EnableLeavesAlone(w, ok, h, n);
      } else {
        IdleStays(w, ok);
      }
    case _ => SamePlace(w, Apply(w, step), h, n);
  }

  lemma NowhereElse(w: World, h: nat, n: nat)
    requires LeftAlone(w, h, n)
    ensures w.pc.Idle? || w.pc.StartWalk? || w.pc.Starting? || w.pc.Enabling? || w.pc.RollingBack?
  {
  }

  lemma IdleStays(w: World, ok: bool)
    requires w.pc.Idle?
    ensures AdvanceStep(w, ok) == w
  {
  }

  lemma SamePlace(w: World, after: World, h: nat, n: nat)
    requires LeftAlone(w, h, n) && after.rt.groups == w.rt.groups && after.pc == w.pc && after.log == w.log
    ensures LeftAlone(after, h, n)
  {
  }

  lemma {:induction false} RunLeavesAlone(w: World, steps: seq<Step>, h: nat, n: nat)
    requires Inv(w) && LeftAlone(w, h, n) && forall i | 0 <= i < |steps| :: Beside(steps[i])
    ensures LeftAlone(Run(w, steps), h, n)
  {
    hide Inv, LeftAlone, Apply;
    if steps != [] {
      var before := steps[..|steps| - 1];
      RunLeavesAlone(w, before, h, n);
      RunKeeps(w, before);
      BesideLeavesAlone(Run(w, before), steps[|steps| - 1], h, n);
    }
  }

  lemma BeginLeavesAlone(w: World, h: nat)
    requires w.pc.Idle? && AtGroup(w, h, Disabled)
    ensures LeftAlone(Apply(w, StartAll), h, |w.log|)
  {
  }

  lemma LeftAloneMeans(w: World, h: nat, n: nat)
    requires LeftAlone(w, h, n)
    ensures AtGroup(w, h, Disabled) && NotBegun(w.log, n, h)
  {
  }

  /** A group that is disabled when start_all begins is disabled at its end, and at no point is it being enabled. */
  lemma StartAllSkipsDisabled(w: World, steps: seq<Step>, h: nat)
    requires Inv(w) && w.pc.Idle? && AtGroup(w, h, Disabled) && forall i | 0 <= i < |steps| :: Beside(steps[i])
    ensures var after := Run(Apply(w, StartAll), steps);
      AtGroup(after, h, Disabled) && NotBegun(after.log, |w.log|, h)
  {
    hide Inv, Apply, Run, LeftAlone;
    ApplyKeeps(w, StartAll);
    BeginLeavesAlone(w, h);
    RunLeavesAlone(Apply(w, StartAll), steps, h, |w.log|);
    LeftAloneMeans(Run(Apply(w, StartAll), steps), h, |w.log|);
  }
}
