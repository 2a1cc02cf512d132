/**
 Administrative operations of the registry come to an end, and where start_all and stop_all end up
 (components/claw_cap/src/claw_cap.c, lines 1433-1635).
 Main results: OperationsFinish, StartAllOutcome, StopAllOutcome.
 */
module CapProgress {
  import opened Common
  import opened CapTypes
  import opened CapWorld
  import opened CapInvariant
  import opened CapTheorems

  // ---- One move ----

  /** Slots a walk that asked for this operation still has to visit. */
  ghost function SlotsLeft(groups: nat, from: Origin): nat {
    if from.Direct? || from.next > groups then 0 else groups + 1 - from.next
  }

  ghost function Minus(a: nat, b: nat): nat { if a < b then 0 else a - b }

  /** How far the running operation still has to go: slots left to walk, stage, callbacks left. */
  ghost function Remaining(w: World): (nat, nat, nat) {
    var groups := |w.rt.groups|;
    match w.pc
    case Idle => (0, 0, 0)
    case StartWalk(i) => (Minus(groups + 1, i), 0, 0)
    case StopWalk(i) => (Minus(groups + 1, i), 0, 0)
    case Enabling(_, from) => (SlotsLeft(groups, from), 3, 0)
    case Starting(g, at, from) =>
      (SlotsLeft(groups, from), 2, if g < groups then Minus(StartCallbacks(w.rt, g), at) else 0)
    case RollingBack(_, from) => (SlotsLeft(groups, from), 1, 0)
    case Disabling(_, from) => (SlotsLeft(groups, from), 3, 0)
    case Stopping(g, at, from) =>
      (SlotsLeft(groups, from), 2, if g < groups then Minus(StopCallbacks(w.rt, g), at) else 0)
    case DrainWait(_) => (0, 3, 0)
    case Unload(g, at) => (0, 2, if g < groups then Minus(StopCallbacks(w.rt, g), at) else 0)
  }

  ghost predicate Before(a: (nat, nat, nat), b: (nat, nat, nat)) {
    a.0 < b.0 || (a.0 == b.0 && (a.1 < b.1 || (a.1 == b.1 && a.2 < b.2)))
  }

  lemma WalkMovesShrink(w: World, ok: bool)
    requires Inv(w) && (w.pc.StartWalk? || w.pc.StopWalk? || w.pc.Enabling? || w.pc.Disabling?)
    ensures Before(Remaining(AdvanceStep(w, ok)), Remaining(w))
  {
    hide GraphOk, CallsOk, StateOk;
    match w.pc
    case Enabling(groupId, from) =>
    case Disabling(groupId, from) =>
    case StartWalk(i) =>
    case StopWalk(i) =>
  }

  lemma CallbackMovesShrink(w: World, ok: bool)
    requires Inv(w) && (w.pc.Starting? || w.pc.RollingBack? || w.pc.Stopping? || w.pc.Unload?)
    ensures Before(Remaining(AdvanceStep(w, ok)), Remaining(w))
  {
    hide GraphOk, CallsOk, StateOk, Busy, StartCallback, StopCallback, WithState, Cleared;
    match w.pc
    case Starting(g, at, from) =>
      var after := StartMove(w, g, at, from, ok);
      assert at < StartCallbacks(w.rt, g) ==> after.rt.groups == w.rt.groups;
    case RollingBack(g, from) =>
    case Stopping(g, at, from) =>
    case Unload(g, at) =>
  }

  /**
   Every administrative operation ends: each of its moves shrinks what remains, except a turn of
   the drain loop that finds the group busy with time left.
   */
  lemma OperationsEnd(w: World, ok: bool)
    requires Inv(w) && !w.pc.Idle?
    ensures Before(Remaining(Apply(w, Advance(ok))), Remaining(w))
            || (w.pc.DrainWait? && ok && CallsOn(w, w.pc.g) != {} && Apply(w, Advance(ok)) == w)
  {
    hide GraphOk, CallsOk, StateOk;
    match w.pc
    case DrainWait(g) => BusyIffCalls(w, g);
    case Starting(g, at, from) => CallbackMovesShrink(w, ok);
    case RollingBack(g, from) => CallbackMovesShrink(w, ok);
    case Stopping(g, at, from) => CallbackMovesShrink(w, ok);
    case Unload(g, at) => CallbackMovesShrink(w, ok);
    case _ => WalkMovesShrink(w, ok);
  }

  /** Calls coming and going, or anyone else's attempt to administer, neither help nor hinder it. */
  lemma OthersDoNotDelay(w: World, step: Step)
    requires Inv(w) && !w.pc.Idle? && !step.Advance?
    ensures Remaining(Apply(w, step)) == Remaining(w)
  {
    hide GraphOk, CallsOk, StateOk;
    match step
    case Admit(call, target, ctx) => AdmitKeeps(w, call, target, ctx);
    case Finish(call) => FinishKeeps(w, call);
    case SetVisible(groups) =>
    case SetSession(session, groups) =>
    case _ =>
  }

  // ---- Whole runs ----

  ghost predicate SameMembers(a: seq<GroupSlot>, b: seq<GroupSlot>) {
    |a| == |b| && forall g | 0 <= g < |a| :: |a[g].members| == |b[g].members|
  }

  /** The most positions any start or stop phase can have. */
  ghost function Longest(groups: seq<GroupSlot>): (n: nat)
    ensures forall g | 0 <= g < |groups| :: 2 * |groups[g].members| + 1 <= n
  {
    if groups == [] then 0
    else
      var last := |groups| - 1;
      assert forall g | 0 <= g < last :: groups[..last][g] == groups[g];
      Max(Longest(groups[..last]), 2 * |groups[last].members| + 1)
  }

  lemma {:induction false} LongestSame(a: seq<GroupSlot>, b: seq<GroupSlot>)
    requires SameMembers(a, b)
    ensures Longest(a) == Longest(b)
  {
    if a != [] {
      LongestSame(a[..|a| - 1], b[..|b| - 1]);
    }
  }

  ghost function Weigh(remaining: (nat, nat, nat), longest: nat): nat {
    (4 * remaining.0 + remaining.1) * (longest + 1) + remaining.2
  }

  /** What remains, as one number: no operation makes more moves than this, waiting turns aside. */
  ghost function Budget(w: World): nat { Weigh(Remaining(w), Longest(w.rt.groups)) }

  lemma RemainingBounds(w: World)
    ensures Remaining(w).1 <= 3 && Remaining(w).2 <= Longest(w.rt.groups)
  {
  }

  lemma SmallerBudget(a: (nat, nat, nat), b: (nat, nat, nat), longest: nat)
    requires Before(a, b) && a.1 <= 3 && b.1 <= 3 && a.2 <= longest
    ensures Weigh(a, longest) < Weigh(b, longest)
  {
    hide Before;
    BeforeMeans(a, b);
    var x, y := 4 * a.0 + a.1, 4 * b.0 + b.1;
    if x < y {
      RowsApart(x, y, longest + 1);
    }
  }

  lemma BeforeMeans(a: (nat, nat, nat), b: (nat, nat, nat))
    requires Before(a, b) && a.1 <= 3 && b.1 <= 3
    ensures var x, y := 4 * a.0 + a.1, 4 * b.0 + b.1; x < y || (x == y && a.2 < b.2)
  {
  }

  lemma RowsApart(x: nat, y: nat, unit: nat)
    requires x < y
    ensures x * unit + unit <= y * unit
  {
    var d := y - (x + 1);
    assert y * unit == (x + 1) * unit + d * unit by { Distributes(x + 1, d, unit); }
    assert (x + 1) * unit == x * unit + unit by { Distributes(x, 1, unit); }
  }

  lemma Distributes(a: nat, b: nat, p: nat)
    ensures (a + b) * p == a * p + b * p
  {
  }

  /** Until it ends, an operation leaves every member list as long as it was. */
  lemma MovesKeepMembers(w: World, ok: bool)
    requires Inv(w) && !w.pc.Idle?
    ensures AdvanceStep(w, ok).pc.Idle? || SameMembers(w.rt.groups, AdvanceStep(w, ok).rt.groups)
  {
    hide GraphOk, CallsOk, StateOk, Busy, StartCallback, StopCallback, FindGroup;
    match w.pc
    case Idle =>
    case Enabling(_, _) =>
    case Starting(_, _, _) =>
    case RollingBack(_, _) =>
    case Disabling(_, _) =>
    case Stopping(_, _, _) =>
    case DrainWait(_) =>
    case Unload(_, _) =>
    case StartWalk(_) =>
    case StopWalk(_) =>
  }

  /** A turn of the wait loop that finds the group busy with time left. */
  ghost predicate WaitingTurn(w: World, step: Step) {
    step == Advance(true) && w.pc.DrainWait? && w.pc.g < |w.rt.groups| && CallsOn(w, w.pc.g) != {}
  }

  lemma MoveSpends(w: World, ok: bool)
    requires Inv(w) && !w.pc.Idle? && !WaitingTurn(w, Advance(ok))
    ensures Apply(w, Advance(ok)).pc.Idle? || Budget(Apply(w, Advance(ok))) < Budget(w)
  {
    hide Inv, AdvanceStep, Remaining, Before, Weigh;
    var after := Apply(w, Advance(ok));
    WaitsAtGroup(w);
    OperationsEnd(w, ok);
    MovesKeepMembers(w, ok);
    if !after.pc.Idle? {
      LongestSame(w.rt.groups, after.rt.groups);
      RemainingBounds(w);
      RemainingBounds(after);
      SmallerBudget(Remaining(after), Remaining(w), Longest(w.rt.groups));
    }
  }

  lemma WaitsAtGroup(w: World)
    requires Inv(w)
    ensures w.pc.DrainWait? ==> w.pc.g < |w.rt.groups|
  {
  }

  lemma OthersSpendNothing(w: World, step: Step)
    requires Inv(w) && !w.pc.Idle? && !step.Advance?
    ensures Budget(Apply(w, step)) == Budget(w) && Apply(w, step).pc == w.pc
  {
    hide GraphOk, CallsOk, StateOk, Remaining, Weigh;
    OthersDoNotDelay(w, step);
    match step
    case Admit(call, target, ctx) => AdmitKeeps(w, call, target, ctx);
    case Finish(call) => FinishKeeps(w, call);
    case SetVisible(groups) =>
    case SetSession(session, groups) =>
    case _ =>
  }

  /** Moves of the administrative operation among these steps. */
  ghost function Moves(steps: seq<Step>): nat {
    if steps == [] then 0 else Moves(steps[..|steps| - 1]) + if steps[|steps| - 1].Advance? then 1 else 0
  }

  ghost predicate NeverWaits(w: World, steps: seq<Step>) {
    forall k | 0 <= k < |steps| :: !WaitingTurn(Run(w, steps[..k]), steps[k])
  }

  ghost predicate NeverRests(w: World, steps: seq<Step>) {
    forall k | 0 <= k <= |steps| :: !Run(w, steps[..k]).pc.Idle?
  }

  lemma PrefixesToo(w: World, steps: seq<Step>)
    requires steps != []
    ensures NeverWaits(w, steps) ==>
              NeverWaits(w, steps[..|steps| - 1]) && !WaitingTurn(Run(w, steps[..|steps| - 1]), steps[|steps| - 1])
    ensures NeverRests(w, steps) ==>
              NeverRests(w, steps[..|steps| - 1]) && !Run(w, steps[..|steps| - 1]).pc.Idle? && !Run(w, steps).pc.Idle?
  {
    var before := steps[..|steps| - 1];
    assert steps[..|steps|] == steps;
    assert forall k | 0 <= k <= |before| :: before[..k] == steps[..k];
  }

  lemma {:induction false} MovesSpend(w: World, steps: seq<Step>)
    requires Inv(w) && NeverWaits(w, steps) && NeverRests(w, steps)
    ensures Budget(Run(w, steps)) + Moves(steps) <= Budget(w)
  {
    hide Inv, Budget, NeverWaits, NeverRests, WaitingTurn, Apply;
    if steps != [] {
      var before := steps[..|steps| - 1];
      var step := steps[|steps| - 1];
      PrefixesToo(w, steps);
      MovesSpend(w, before);
      RunKeeps(w, before);
      if step.Advance? {
        MoveSpends(Run(w, before), step.ok);
      } else {
        OthersSpendNothing(Run(w, before), step);
      }
    }
  }

  /**
   Every administrative operation ends: whatever calls come and go in between, a run with more moves
   than the budget, none of them a turn that waits for calls, passes through a state at rest.
   */
  lemma OperationsFinish(w: World, steps: seq<Step>)
    requires Inv(w) && NeverWaits(w, steps) && Moves(steps) > Budget(w)
    ensures exists k | 0 <= k <= |steps| :: Run(w, steps[..k]).pc.Idle?
  {
    if NeverRests(w, steps) {
      MovesSpend(w, steps);
    }
  }

  // ---- start_all and stop_all ----

  /** In the middle of start_all: walking, or enabling a group for it. */
  ghost predicate InStartAll(w: World) {
    w.rt.started && match w.pc
      case StartWalk(_) => true
      case Enabling(_, from) => from.FromStartAll?
      case Starting(_, _, from) => from.FromStartAll?
      case RollingBack(_, from) => from.FromStartAll?
      case _ => false
  }

  ghost predicate InStopAll(w: World) {
    match w.pc
    case StopWalk(_) => true
    case Disabling(_, from) => from.FromStopAll?
    case Stopping(_, _, from) => from.FromStopAll?
    case _ => false
  }

  lemma StartAllGoesOn(w: World, step: Step)
    requires InStartAll(w)
    ensures var after := Apply(w, step); after.rt.started && (InStartAll(after) || after.pc.Idle?)
  {
    hide FindGroup, StartCallback, Admits, FindCap;
    match w.pc
    case StartWalk(_) =>
    case Enabling(_, _) =>
    case Starting(_, _, _) =>
    case RollingBack(_, _) =>
  }

  lemma StopAllGoesOn(w: World, step: Step)
    requires InStopAll(w)
    ensures var after := Apply(w, step); InStopAll(after) || (after.pc.Idle? && !after.rt.started)
  {
    hide FindGroup, StopCallback, Admits, FindCap;
    match w.pc
    case StopWalk(_) =>
    case Disabling(_, _) =>
    case Stopping(_, _, _) =>
  }

  /** The run comes to rest with its last step and not before. */
  ghost predicate RestsAtEnd(w: World, steps: seq<Step>) {
    Run(w, steps).pc.Idle? && forall k | 0 <= k < |steps| :: !Run(w, steps[..k]).pc.Idle?
  }

  lemma {:induction false} StartAllRun(w: World, steps: seq<Step>)
    requires InStartAll(w) && forall k | 0 <= k < |steps| :: !Run(w, steps[..k]).pc.Idle?
    ensures Run(w, steps).rt.started && (InStartAll(Run(w, steps)) || Run(w, steps).pc.Idle?)
  {
    hide Apply;
    if steps != [] {
      var before := steps[..|steps| - 1];
      assert forall k | 0 <= k < |before| :: before[..k] == steps[..k];
      StartAllRun(w, before);
      StartAllGoesOn(Run(w, before), steps[|steps| - 1]);
    }
  }

  lemma {:induction false} StopAllRun(w: World, steps: seq<Step>)
    requires InStopAll(w) && forall k | 0 <= k < |steps| :: !Run(w, steps[..k]).pc.Idle?
    ensures InStopAll(Run(w, steps)) || (Run(w, steps).pc.Idle? && !Run(w, steps).rt.started)
  {
    hide InStopAll, Apply;
    if steps != [] {
      var before := steps[..|steps| - 1];
      assert forall k | 0 <= k < |before| :: before[..k] == steps[..k];
      StopAllRun(w, before);
      StopAllGoesOn(Run(w, before), steps[|steps| - 1]);
    }
  }

  lemma StillReachable(w: World, step: Step, steps: seq<Step>)
    requires Reachable(w)
    ensures Reachable(Run(Apply(w, step), steps))
  {
    hide Apply;
    var first :| Run(EMPTY, first) == w;
    RunSnoc(EMPTY, first, step);
    RunConcat(EMPTY, first + [step], steps);
  }

  /** From a stopped registry at rest, start_all ends with no group left merely registered, whatever calls ran. */
  lemma StartAllOutcome(w: World, steps: seq<Step>, g: nat)
    requires Reachable(w) && w.pc.Idle? && !w.rt.started && RestsAtEnd(Apply(w, StartAll), steps)
    ensures var after := Run(Apply(w, StartAll), steps);
      && after.rt.started
      && (g < |after.rt.groups| && after.rt.groups[g].occupied ==> after.rt.groups[g].state in {Started, Disabled, Draining})
  {
    hide Inv, Reachable;
    var after := Run(Apply(w, StartAll), steps);
    StartAllRun(Apply(w, StartAll), steps);
    StillReachable(w, StartAll, steps);
    if g < |after.rt.groups| && after.rt.groups[g].occupied {
      RestingStates(after, g);
    }
  }

  /** From rest, stop_all ends with no group left started, whatever calls ran. */
  lemma StopAllOutcome(w: World, steps: seq<Step>, g: nat)
    requires Reachable(w) && w.pc.Idle? && RestsAtEnd(Apply(w, StopAll), steps)
    ensures var after := Run(Apply(w, StopAll), steps);
      && !after.rt.started
      && (g < |after.rt.groups| && after.rt.groups[g].occupied ==> after.rt.groups[g].state in {LifeState.Registered, Disabled, Draining})
  {
    hide Inv, Reachable;
    var after := Run(Apply(w, StopAll), steps);
    StopAllRun(Apply(w, StopAll), steps);
    StillReachable(w, StopAll, steps);
    if g < |after.rt.groups| && after.rt.groups[g].occupied {
      RestingStates(after, g);
    }
  }
}
