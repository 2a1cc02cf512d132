/**
 Which lifecycle callbacks run, in which order (components/claw_cap/src/claw_cap.c, lines 1030-1103,
 1485-1565 and 1628), in terms of the group and the descriptors that were registered.
 Main results: StopPhaseRuns, StartPhaseRuns.
 */
module CapCallbacks {
  import opened Common
  import opened CapTypes
  import opened CapRegister
  import opened CapWorld
  import opened CapInvariant
  import opened CapTheorems
  import opened CapDrain

  // ---- Stop callbacks ----

  /** A disable or an unregister is between two stop callbacks of g. */
  ghost predicate InStopPhase(w: World, g: nat) {
    (w.pc.Stopping? || w.pc.Unload?) && w.pc.g == g
  }

  /** events are the stops of the members ks, in that order, followed by the group's own when withGroup. */
  ghost predicate StopsOf(events: seq<Event>, slot: GroupSlot, g: nat, ks: seq<nat>, withGroup: bool) {
    && |events| == |ks| + (if withGroup then 1 else 0)
    && (forall j | 0 <= j < |ks| ::
          ks[j] < |slot.members| && events[j].Ran? && events[j].cb == Stop(slot.members[ks[j]]))
    && (withGroup ==> events[|ks|].Ran? && events[|ks|].cb == GroupStop(g))
  }

  /** ks lists, from last to first, the members from the n-th on that have a stop callback. */
  ghost predicate StoppableFrom(ks: seq<nat>, slot: GroupSlot, n: int) {
    && (forall i, j | 0 <= i < j < |ks| :: ks[i] > ks[j])
    && (forall k: nat :: k in ks <==> n <= k < |slot.group.descriptors| && slot.group.descriptors[k].hasStop)
  }

  /** One stop for each member that has one, last to first, then the group's, and nothing else. */
  ghost predicate AllStops(events: seq<Event>, slot: GroupSlot, g: nat) {
    exists ks :: StoppableFrom(ks, slot, 0) && StopsOf(events, slot, g, ks, slot.group.hasStop)
  }

  /** What position at of a stop phase adds to the log. */
  ghost function StopEvents(slot: GroupSlot, g: nat, at: nat, ok: bool): seq<Event>
    requires |slot.members| == |slot.group.descriptors|
  {
    var n := |slot.members|;
    if at < n && slot.group.descriptors[n - 1 - at].hasStop then [Ran(Stop(slot.members[n - 1 - at]), ok)]
    else if at == n && slot.group.hasStop then [Ran(GroupStop(g), ok)]
    else []
  }

  lemma StopTurnLogs(w: World, ok: bool, g: nat)
    requires Inv(w) && InStopPhase(w, g)
    ensures g < |w.rt.groups| && |w.rt.groups[g].members| == |w.rt.groups[g].group.descriptors| >= w.pc.at - 1
    ensures w.pc.at <= |w.rt.groups[g].members| ==>
              var after := Apply(w, Advance(ok));
              && after.pc == (if w.pc.Stopping? then Stopping(g, w.pc.at + 1, w.pc.from) else Unload(g, w.pc.at + 1))
              && after.rt == w.rt && after.log == w.log + StopEvents(w.rt.groups[g], g, w.pc.at, ok)
    ensures w.pc.at > |w.rt.groups[g].members| ==>
              !InStopPhase(Apply(w, Advance(ok)), g) && Apply(w, Advance(ok)).log == w.log
  {
    hide CallsOk, StateOk, NamesDistinct, Busy;
    assert GroupOk(w.rt, g);
    var slot := w.rt.groups[g];
    var n := |slot.members|;
    if w.pc.at < n {
      assert MemberOk(w.rt, g, n - 1 - w.pc.at);
    }
    assert w.log + [] == w.log;
  }

  /** Steps of calls and of visibility leave the phase, the groups and the log as they are, and nothing else is possible. */
  lemma OthersInPhase(w: World, step: Step)
    requires !step.Advance? && !w.pc.Idle?
    ensures var after := Apply(w, step);
      && after.pc == w.pc && after.log == w.log && after.rt.groups == w.rt.groups && |after.rt.caps| == |w.rt.caps|
      && forall s | 0 <= s < |w.rt.caps| ::
           after.rt.caps[s].descriptor == w.rt.caps[s].descriptor && after.rt.caps[s].initCalled == w.rt.caps[s].initCalled
  {
    hide Admits;
  }

  lemma StoppableDown(ks: seq<nat>, slot: GroupSlot, n: nat)
    requires StoppableFrom(ks, slot, n + 1) && n < |slot.group.descriptors|
    ensures if slot.group.descriptors[n].hasStop then StoppableFrom(ks + [n], slot, n) else StoppableFrom(ks, slot, n)
  {
    if slot.group.descriptors[n].hasStop {
      forall i | 0 <= i < |ks| ensures ks[i] > n {
        assert ks[i] in ks;
      }
      assert forall k: nat :: k in ks + [n] <==> k in ks || k == n;
    }
  }

  lemma MoreStops(events: seq<Event>, slot: GroupSlot, g: nat, ks: seq<nat>, ok: bool)
    requires StopsOf(events, slot, g, ks, false)
    ensures StopsOf(events + [Ran(GroupStop(g), ok)], slot, g, ks, true)
    ensures forall k: nat | k < |slot.members| :: StopsOf(events + [Ran(Stop(slot.members[k]), ok)], slot, g, ks + [k], false)
  {
  }

  lemma OneMoreStop(events: seq<Event>, slot: GroupSlot, g: nat, ks: seq<nat>, at: nat, ok: bool) returns (more: seq<nat>)
    requires |slot.members| == |slot.group.descriptors| && at <= |slot.members|
    requires StoppableFrom(ks, slot, |slot.members| - at) && StopsOf(events, slot, g, ks, false)
    ensures StoppableFrom(more, slot, |slot.members| - at - 1)
    ensures StopsOf(events + StopEvents(slot, g, at, ok), slot, g, more, at == |slot.members| && slot.group.hasStop)
  {
    hide StoppableFrom, StopsOf;
    var n := |slot.members|;
    MoreStops(events, slot, g, ks, ok);
    assert events + [] == events;
    if at < n {
      StoppableDown(ks, slot, n - 1 - at);
      more := if slot.group.descriptors[n - 1 - at].hasStop then ks + [n - 1 - at] else ks;
    } else {
      StoppableAll(ks, slot);
      more := ks;
    }
  }

  ghost predicate StopPhaseThroughout(w: World, steps: seq<Step>, g: nat) {
    forall k | 0 <= k <= |steps| :: InStopPhase(Run(w, steps[..k]), g)
  }

  lemma StopPhaseAtEnds(w: World, steps: seq<Step>, g: nat)
    requires StopPhaseThroughout(w, steps, g)
    ensures InStopPhase(w, g) && InStopPhase(Run(w, steps), g)
    ensures steps != [] ==> StopPhaseThroughout(w, steps[..|steps| - 1], g)
  {
    hide Apply;
    assert steps[..|steps|] == steps && steps[..0] == [];
    assert InStopPhase(Run(w, steps[..0]), g);
    if steps != [] {
      var before := steps[..|steps| - 1];
      assert forall k | 0 <= k <= |before| :: before[..k] == steps[..k];
    }
  }

  /** The events logged while the phase lasted, when it stands at position at. */
  ghost predicate StopsSoFar(w: World, after: World, g: nat, ks: seq<nat>) {
    && g < |w.rt.groups| && g < |after.rt.groups| && after.rt.groups[g] == w.rt.groups[g]
    && InStopPhase(after, g) && |w.log| <= |after.log| && after.log[..|w.log|] == w.log
    && var slot := w.rt.groups[g];
       && |slot.members| == |slot.group.descriptors| && after.pc.at <= |slot.members| + 1
       && StoppableFrom(ks, slot, |slot.members| - after.pc.at)
       && StopsOf(after.log[|w.log|..], slot, g, ks, after.pc.at > |slot.members| && slot.group.hasStop)
  }

  lemma StopsStep(w: World, mid: World, ok: bool, g: nat, ks: seq<nat>) returns (more: seq<nat>)
    requires Inv(mid) && StopsSoFar(w, mid, g, ks) && mid.pc.at <= |w.rt.groups[g].members|
    ensures StopsSoFar(w, Apply(mid, Advance(ok)), g, more)
  {
    hide Inv, Apply, StoppableFrom, StopsOf, StopEvents;
    var slot := w.rt.groups[g];
    StopTurnLogs(mid, ok, g);
    more := OneMoreStop(mid.log[|w.log|..], slot, g, ks, mid.pc.at, ok);
    assert Apply(mid, Advance(ok)).log[|w.log|..] == mid.log[|w.log|..] + StopEvents(slot, g, mid.pc.at, ok);
  }

  lemma StopsWait(w: World, mid: World, step: Step, g: nat, ks: seq<nat>)
    requires StopsSoFar(w, mid, g, ks) && !step.Advance?
    ensures StopsSoFar(w, Apply(mid, step), g, ks)
  {
    hide Apply, StoppableFrom, StopsOf;
    OthersInPhase(mid, step);
  }

  lemma {:induction false} StopPhase(w: World, steps: seq<Step>, g: nat) returns (ks: seq<nat>)
    requires Inv(w) && InStopPhase(w, g) && w.pc.at == 0 && StopPhaseThroughout(w, steps, g)
    ensures Inv(Run(w, steps)) && StopsSoFar(w, Run(w, steps), g, ks)
    decreases |steps|
  {
    hide Inv, Apply, StopPhaseThroughout, StopsSoFar;
    StopPhaseAtEnds(w, steps, g);
    if steps == [] {
      ks := [];
      StopTurnLogs(w, true, g);
      NoStopsYet(w, g);
    } else {
      var before := steps[..|steps| - 1];
      var step := steps[|steps| - 1];
      ks := StopPhase(w, before, g);
      RunKeeps(w, steps);
      var mid := Run(w, before);
      if step.Advance? {
        StillInPhase(w, mid, step.ok, g, ks);
        ks := StopsStep(w, mid, step.ok, g, ks);
      } else {
        StopsWait(w, mid, step, g, ks);
      }
    }
  }

  lemma StillInPhase(w: World, mid: World, ok: bool, g: nat, ks: seq<nat>)
    requires Inv(mid) && StopsSoFar(w, mid, g, ks) && InStopPhase(Apply(mid, Advance(ok)), g)
    ensures mid.pc.at <= |w.rt.groups[g].members|
  {
    hide Inv, Apply, StoppableFrom, StopsOf;
    StopTurnLogs(mid, ok, g);
  }

  lemma NoStopsYet(w: World, g: nat)
    requires InStopPhase(w, g) && w.pc.at == 0 && g < |w.rt.groups|
    requires |w.rt.groups[g].members| == |w.rt.groups[g].group.descriptors|
    ensures StopsSoFar(w, w, g, [])
  {
    assert w.log[|w.log|..] == [];
  }

  /**
   Over every run: from the start of the stop phase of a disable or an unregister to the step that ends it,
   what the log gains is one stop for each member with a stop callback, from the last member to the first, then
   the group's own if it has one, and nothing else.
   */
  lemma StopPhaseRuns(w: World, steps: seq<Step>, last: Step, g: nat)
    requires Inv(w) && InStopPhase(w, g) && w.pc.at == 0 && StopPhaseThroughout(w, steps, g)
    requires !InStopPhase(Apply(Run(w, steps), last), g)
    ensures g < |w.rt.groups| && last.Advance?
    ensures var after := Apply(Run(w, steps), last);
      |w.log| <= |after.log| && after.log[..|w.log|] == w.log && AllStops(after.log[|w.log|..], w.rt.groups[g], g)
  {
    hide Inv, Apply, StopPhaseThroughout, StoppableFrom, StopsOf;
    var ks := StopPhase(w, steps, g);
    var mid := Run(w, steps);
    if last.Advance? {
      StopTurnLogs(mid, last.ok, g);
      StoppableAll(ks, w.rt.groups[g]);
    } else {
      OthersInPhase(mid, last);
    }
  }

  lemma StoppableAll(ks: seq<nat>, slot: GroupSlot)
    ensures StoppableFrom(ks, slot, -1) <==> StoppableFrom(ks, slot, 0)
  {
  }

  // ---- Start callbacks ----

  ghost predicate InStartPhase(w: World, g: nat) {
    w.pc.Starting? && w.pc.g == g
  }

  /**
   Positions of the start phase: 0 is the group's start, 2k + 1 the init of member k and 2k + 2 its start.
   Those that run a callback: an init only for a descriptor that has one and whose init has not succeeded.
   */
  ghost predicate Due(slot: GroupSlot, caps: seq<CapSlot>, p: nat) {
    if p == 0 then slot.group.hasStart
    else
      var k := (p - 1) / 2;
      && k < |slot.members| && k < |slot.group.descriptors| && slot.members[k] < |caps|
      && if p % 2 == 1 then slot.group.descriptors[k].hasInit && !caps[slot.members[k]].initCalled
         else slot.group.descriptors[k].hasStart
  }

  /** The callback of a position. */
  ghost predicate Runs(e: Event, slot: GroupSlot, g: nat, p: nat) {
    && e.Ran?
    && if p == 0 then e.cb == GroupStart(g)
       else
         var k := (p - 1) / 2;
         k < |slot.members| && e.cb == if p % 2 == 1 then Init(slot.members[k]) else Start(slot.members[k])
  }

  /** ps are the positions below n that are due, in order, and events their callbacks; only the last may have failed. */
  ghost predicate StartsOf(events: seq<Event>, slot: GroupSlot, caps: seq<CapSlot>, g: nat, n: nat, ps: seq<nat>) {
    && (forall i, j | 0 <= i < j < |ps| :: ps[i] < ps[j])
    && (forall p: nat :: p in ps <==> p < n && Due(slot, caps, p))
    && |events| == |ps| && (forall j | 0 <= j < |ps| :: Runs(events[j], slot, g, ps[j]))
    && (forall j | 0 <= j < |ps| - 1 :: events[j].ok)
  }

  ghost predicate StartsBelow(events: seq<Event>, slot: GroupSlot, caps: seq<CapSlot>, g: nat, n: nat) {
    exists ps :: StartsOf(events, slot, caps, g, n, ps)
  }

  /** All start callbacks ran and succeeded. */
  ghost predicate AllStarts(events: seq<Event>, slot: GroupSlot, caps: seq<CapSlot>, g: nat) {
    && StartsBelow(events, slot, caps, g, 2 * |slot.members| + 1)
    && (forall j | 0 <= j < |events| && events[j].Ran? :: events[j].ok)
  }

  /** The callbacks up to some position ran, the last of them failed, and the others succeeded. */
  ghost predicate StartsUpToFailure(events: seq<Event>, slot: GroupSlot, caps: seq<CapSlot>, g: nat) {
    && (exists n: nat :: n <= 2 * |slot.members| + 1 && StartsBelow(events, slot, caps, g, n))
    && events != [] && events[|events| - 1].Ran? && !events[|events| - 1].ok
  }

  /** A phase that began in w and stands at its position in mid: what was logged, and which inits are still to come. */
  ghost predicate StartsSoFar(w: World, mid: World, g: nat, ps: seq<nat>) {
    && g < |w.rt.groups| && InStartPhase(mid, g)
    && g < |mid.rt.groups| && mid.rt.groups[g].members == w.rt.groups[g].members
    && mid.rt.groups[g].group == w.rt.groups[g].group && |mid.rt.caps| == |w.rt.caps|
    && |w.log| <= |mid.log| && mid.log[..|w.log|] == w.log
    && mid.pc.at <= 2 * |w.rt.groups[g].members| + 1
    && (forall k | 0 <= k < |w.rt.groups[g].members| && mid.pc.at <= 2 * k + 1 && w.rt.groups[g].members[k] < |w.rt.caps| ::
          mid.rt.caps[w.rt.groups[g].members[k]].initCalled == w.rt.caps[w.rt.groups[g].members[k]].initCalled)
    && StartsOf(mid.log[|w.log|..], w.rt.groups[g], w.rt.caps, g, mid.pc.at, ps)
    && (forall j | |w.log| <= j < |mid.log| && mid.log[j].Ran? :: mid.log[j].ok)
  }

  /** What the callback at a position does. */
  lemma StartTurnLogs(w: World, ok: bool, g: nat)
    requires Inv(w) && InStartPhase(w, g)
    ensures g < |w.rt.groups| && w.pc.at <= 2 * |w.rt.groups[g].members| + 1
    ensures w.pc.at <= 2 * |w.rt.groups[g].members| ==>
              var after := Apply(w, Advance(ok));
              if Due(w.rt.groups[g], w.rt.caps, w.pc.at) then
                && |after.log| == |w.log| + 1 && after.log[..|w.log|] == w.log
                && Runs(after.log[|w.log|], w.rt.groups[g], g, w.pc.at) && after.log[|w.log|].Ran? && after.log[|w.log|].ok == ok
                && after.pc == if ok then Starting(g, w.pc.at + 1, w.pc.from) else RollingBack(g, w.pc.from)
              else after.log == w.log && after.pc == Starting(g, w.pc.at + 1, w.pc.from)
    ensures w.pc.at > 2 * |w.rt.groups[g].members| ==>
              Apply(w, Advance(ok)).log == w.log && !InStartPhase(Apply(w, Advance(ok)), g)
              && !Apply(w, Advance(ok)).pc.RollingBack?
  {
    hide CallsOk, StateOk, NamesDistinct, StartLocked;
    assert GroupOk(w.rt, g);
    var k := (w.pc.at - 1) / 2;
    if 0 < w.pc.at <= 2 * |w.rt.groups[g].members| {
      assert MemberOk(w.rt, g, k);
    }
  }

  lemma StartTurnInits(w: World, ok: bool, g: nat, k: nat)
    requires Inv(w) && InStartPhase(w, g) && g < |w.rt.groups| && k < |w.rt.groups[g].members|
    requires w.pc.at <= 2 * |w.rt.groups[g].members| && w.pc.at < 2 * k + 1
    ensures var after := Apply(w, Advance(ok));
      var m := w.rt.groups[g].members[k];
      && after.rt.groups == w.rt.groups && |after.rt.caps| == |w.rt.caps| && m < |w.rt.caps|
      && after.rt.caps[m].initCalled == w.rt.caps[m].initCalled
  {
    hide CallsOk, StateOk, NamesDistinct;
    assert GroupOk(w.rt, g) && MemberOk(w.rt, g, k);
  }

  lemma OneMoreStart(events: seq<Event>, slot: GroupSlot, caps: seq<CapSlot>, g: nat, n: nat, ps: seq<nat>, e: Event)
    requires StartsOf(events, slot, caps, g, n, ps) && Due(slot, caps, n) && Runs(e, slot, g, n)
    requires forall j | 0 <= j < |events| && events[j].Ran? :: events[j].ok
    ensures StartsOf(events + [e], slot, caps, g, n + 1, ps + [n])
  {
    hide Due;
    forall i | 0 <= i < |ps| ensures ps[i] < n {
      assert ps[i] in ps;
    }
    assert forall p: nat :: p in ps + [n] <==> p in ps || p == n;
  }

  lemma NoStartHere(events: seq<Event>, slot: GroupSlot, caps: seq<CapSlot>, g: nat, n: nat, ps: seq<nat>)
    requires StartsOf(events, slot, caps, g, n, ps) && !Due(slot, caps, n)
    ensures StartsOf(events, slot, caps, g, n + 1, ps)
  {
    hide Due, Runs;
  }

  /** Whether a position is due is the same in the world the phase began in as when it is reached. */
  lemma DueStays(w: World, mid: World, g: nat, ps: seq<nat>)
    requires StartsSoFar(w, mid, g, ps) && Inv(mid)
    ensures Due(mid.rt.groups[g], mid.rt.caps, mid.pc.at) == Due(w.rt.groups[g], w.rt.caps, mid.pc.at)
    ensures forall e: Event :: Runs(e, mid.rt.groups[g], g, mid.pc.at) == Runs(e, w.rt.groups[g], g, mid.pc.at)
  {
    hide Inv, StartsOf;
  }

  ghost predicate StartPhaseThroughout(w: World, steps: seq<Step>, g: nat) {
    forall k | 0 <= k <= |steps| :: InStartPhase(Run(w, steps[..k]), g)
  }

  lemma StartPhaseAtEnds(w: World, steps: seq<Step>, g: nat)
    requires StartPhaseThroughout(w, steps, g)
    ensures InStartPhase(w, g) && InStartPhase(Run(w, steps), g)
    ensures steps != [] ==> StartPhaseThroughout(w, steps[..|steps| - 1], g)
  {
    hide Apply;
    assert steps[..|steps|] == steps && steps[..0] == [];
    assert InStartPhase(Run(w, steps[..0]), g);
    if steps != [] {
      var before := steps[..|steps| - 1];
      assert forall k | 0 <= k <= |before| :: before[..k] == steps[..k];
    }
  }

  /** A callback of the phase, or a position without one. */
  lemma StartsStep(w: World, mid: World, ok: bool, g: nat, ps: seq<nat>) returns (more: seq<nat>)
    requires Inv(mid) && StartsSoFar(w, mid, g, ps) && mid.pc.at <= 2 * |w.rt.groups[g].members|
    ensures var after := Apply(mid, Advance(ok));
      && |w.log| <= |after.log| && after.log[..|w.log|] == w.log
      && StartsOf(after.log[|w.log|..], w.rt.groups[g], w.rt.caps, g, mid.pc.at + 1, more)
      && (if after.pc.RollingBack? then
            |w.log| < |after.log| && after.log[|after.log| - 1].Ran? && !after.log[|after.log| - 1].ok
          else StartsSoFar(w, after, g, more))
  {
    hide Inv, Apply, StartsOf, Due, Runs;
    var after := Apply(mid, Advance(ok));
    var slot := w.rt.groups[g];
    StartTurnLogs(mid, ok, g);
    StartTurnKeeps(mid, ok, g);
    DueStays(w, mid, g, ps);
    InitsToCome(w, mid, ok, g, ps);
    var events := mid.log[|w.log|..];
    if Due(slot, w.rt.caps, mid.pc.at) {
      more := ps + [mid.pc.at];
      OneMoreStart(events, slot, w.rt.caps, g, mid.pc.at, ps, after.log[|mid.log|]);
      assert after.log == mid.log + [after.log[|mid.log|]];
      assert after.log[|w.log|..] == events + [after.log[|mid.log|]];
    } else {
      more := ps;
      NoStartHere(events, slot, w.rt.caps, g, mid.pc.at, ps);
    }
  }

  /** A turn leaves the inits of later members as they were when the phase began. */
  lemma InitsToCome(w: World, mid: World, ok: bool, g: nat, ps: seq<nat>)
    requires Inv(mid) && StartsSoFar(w, mid, g, ps) && mid.pc.at <= 2 * |w.rt.groups[g].members|
    ensures var caps, members := Apply(mid, Advance(ok)).rt.caps, w.rt.groups[g].members;
      && |caps| == |w.rt.caps|
      && forall k | 0 <= k < |members| && mid.pc.at + 1 <= 2 * k + 1 && members[k] < |w.rt.caps| ::
           caps[members[k]].initCalled == w.rt.caps[members[k]].initCalled
  {
    hide Inv, Apply, StartsOf;
    StartTurnKeeps(mid, ok, g);
    var caps, members := Apply(mid, Advance(ok)).rt.caps, w.rt.groups[g].members;
    forall k | 0 <= k < |members| && mid.pc.at + 1 <= 2 * k + 1 && members[k] < |w.rt.caps|
      ensures caps[members[k]].initCalled == w.rt.caps[members[k]].initCalled
    {
      StartTurnInits(mid, ok, g, k);
    }
  }

  lemma StartTurnKeeps(w: World, ok: bool, g: nat)
    requires Inv(w) && InStartPhase(w, g) && g < |w.rt.groups| && w.pc.at <= 2 * |w.rt.groups[g].members|
    ensures Apply(w, Advance(ok)).rt.groups == w.rt.groups && |Apply(w, Advance(ok)).rt.caps| == |w.rt.caps|
  {
    hide Inv, StartCallback;
  }

  lemma StartsWait(w: World, mid: World, step: Step, g: nat, ps: seq<nat>)
    requires StartsSoFar(w, mid, g, ps) && !step.Advance?
    ensures StartsSoFar(w, Apply(mid, step), g, ps)
  {
    hide Apply, StartsOf;
    OthersInPhase(mid, step);
  }

  lemma NoStartsYet(w: World, g: nat)
    requires InStartPhase(w, g) && w.pc.at == 0 && g < |w.rt.groups|
    ensures StartsSoFar(w, w, g, [])
  {
    assert w.log[|w.log|..] == [];
  }

  lemma {:induction false} StartPhase(w: World, steps: seq<Step>, g: nat) returns (ps: seq<nat>)
    requires Inv(w) && InStartPhase(w, g) && w.pc.at == 0 && StartPhaseThroughout(w, steps, g)
    ensures Inv(Run(w, steps)) && StartsSoFar(w, Run(w, steps), g, ps)
    decreases |steps|
  {
    hide Inv, Apply, StartPhaseThroughout, StartsOf;
    StartPhaseAtEnds(w, steps, g);
    if steps == [] {
      ps := [];
      StartTurnLogs(w, true, g);
      NoStartsYet(w, g);
    } else {
      var before := steps[..|steps| - 1];
      var step := steps[|steps| - 1];
      ps := StartPhase(w, before, g);
      RunKeeps(w, steps);
      var mid := Run(w, before);
      if step.Advance? {
        StartTurnLogs(mid, step.ok, g);
        ps := StartsStep(w, mid, step.ok, g, ps);
      } else {
        StartsWait(w, mid, step, g, ps);
      }
    }
  }

  /**
   Over every run: from the start of the start phase of an enable to the step that ends it, what the log gains is
   the group's start, then for each member in order its init, unless it has succeeded before, and its start, as
   far as they exist: all of them, successful, or as many as end with the first failure, which is rolled back.
   */
  lemma StartPhaseRuns(w: World, steps: seq<Step>, last: Step, g: nat)
    requires Inv(w) && InStartPhase(w, g) && w.pc.at == 0 && StartPhaseThroughout(w, steps, g)
    requires !InStartPhase(Apply(Run(w, steps), last), g)
    ensures g < |w.rt.groups| && last.Advance?
    ensures var after := Apply(Run(w, steps), last);
      && |w.log| <= |after.log| && after.log[..|w.log|] == w.log
      && var events := after.log[|w.log|..];
         if after.pc.RollingBack? then StartsUpToFailure(events, w.rt.groups[g], w.rt.caps, g)
         else AllStarts(events, w.rt.groups[g], w.rt.caps, g)
  {
    hide Inv, Apply, StartPhaseThroughout, StartsOf, Due, Runs;
    var ps := StartPhase(w, steps, g);
    var mid := Run(w, steps);
    if last.Advance? {
      StartTurnLogs(mid, last.ok, g);
      if mid.pc.at <= 2 * |w.rt.groups[g].members| {
        var more := StartsStep(w, mid, last.ok, g, ps);
        assert StartsBelow(Apply(mid, last).log[|w.log|..], w.rt.groups[g], w.rt.caps, g, mid.pc.at + 1);
      } else {
        assert StartsBelow(mid.log[|w.log|..], w.rt.groups[g], w.rt.caps, g, mid.pc.at);
      }
    } else {
      OthersInPhase(mid, last);
    }
  }

  /** The log has gained the stops of g. */
  ghost predicate StopsLogged(before: seq<Event>, after: seq<Event>, slot: GroupSlot, g: nat) {
    |before| <= |after| && after[..|before|] == before && AllStops(after[|before|..], slot, g)
  }

  /** The log has gained an enable of g: all its start callbacks, or as many as end with the first failure. */
  ghost predicate StartsLogged(before: seq<Event>, after: seq<Event>, slot: GroupSlot, caps: seq<CapSlot>, g: nat, failed: bool) {
    && |before| < |after| && after[..|before|] == before && after[|before|] == EnableBegan(g)
    && var events := after[|before| + 1..];
       if failed then StartsUpToFailure(events, slot, caps, g) else AllStarts(events, slot, caps, g)
  }

  /** The same groups with the same members, whatever their states. */
  ghost predicate SameMembership(groups: seq<GroupSlot>, others: seq<GroupSlot>) {
    && |groups| == |others|
    && forall g | 0 <= g < |groups| :: others[g].group == groups[g].group && others[g].members == groups[g].members
  }

  // ---- One turn of the loops, with calls before it ----

  lemma {:induction false} StopsServed(w: World, mid: World, traffic: seq<Step>, g: nat, ks: seq<nat>)
    requires Inv(mid) && StopsSoFar(w, mid, g, ks) && OnlyCalls(traffic)
    ensures Inv(Run(mid, traffic)) && StopsSoFar(w, Run(mid, traffic), g, ks) && Run(mid, traffic).pc == mid.pc
  {
    hide Inv, Apply, StopsSoFar;
    if traffic != [] {
      var n := |traffic| - 1;
      StopsServed(w, mid, traffic[..n], g, ks);
      ApplyKeeps(Run(mid, traffic[..n]), traffic[n]);
      PhaseFacts(w, Run(mid, traffic[..n]), g, ks);
      StopsWait(w, Run(mid, traffic[..n]), traffic[n], g, ks);
      OthersInPhase(Run(mid, traffic[..n]), traffic[n]);
    }
  }

  lemma PhaseFacts(w: World, mid: World, g: nat, ks: seq<nat>)
    requires StopsSoFar(w, mid, g, ks)
    ensures InStopPhase(mid, g) && g < |w.rt.groups|
    ensures mid.pc.at == |w.rt.groups[g].members| + 1 ==> AllStops(mid.log[|w.log|..], w.rt.groups[g], g)
  {
    hide StopsOf;
    StoppableAll(ks, w.rt.groups[g]);
  }

  lemma StopsTurn(w: World, mid: World, traffic: seq<Step>, ok: bool, g: nat, ks: seq<nat>) returns (more: seq<nat>)
    requires Inv(mid) && StopsSoFar(w, mid, g, ks) && OnlyCalls(traffic) && mid.pc.at <= |w.rt.groups[g].members|
    ensures StopsSoFar(w, Run(mid, traffic + [Advance(ok)]), g, more)
  {
    hide Inv, Apply, StopsSoFar;
    StopsServed(w, mid, traffic, g, ks);
    PhaseFacts(w, mid, g, ks);
    RunSnoc(mid, traffic, Advance(ok));
    more := StopsStep(w, Run(mid, traffic), ok, g, ks);
  }

  lemma StopsBegin(w: World, g: nat)
    requires Inv(w) && InStopPhase(w, g) && w.pc.at == 0
    ensures StopsSoFar(w, w, g, [])
  {
    StopTurnLogs(w, true, g);
    NoStopsYet(w, g);
  }

  /** Which stops run depends on the group alone, not on its state. */
  lemma SameStops(events: seq<Event>, slot: GroupSlot, other: GroupSlot, g: nat)
    requires other.group == slot.group && other.members == slot.members
    ensures AllStops(events, slot, g) <==> AllStops(events, other, g)
  {
    forall ks ensures StoppableFrom(ks, slot, 0) && StopsOf(events, slot, g, ks, slot.group.hasStop)
                  <==> StoppableFrom(ks, other, 0) && StopsOf(events, other, g, ks, other.group.hasStop) {
    }
  }

  lemma SameStopsLogged(before: seq<Event>, after: seq<Event>, slot: GroupSlot, other: GroupSlot, g: nat)
    requires other.group == slot.group && other.members == slot.members && StopsLogged(before, after, other, g)
    ensures StopsLogged(before, after, slot, g)
  {
    SameStops(after[|before|..], slot, other, g);
  }

  lemma {:induction false} StartsServed(w: World, mid: World, traffic: seq<Step>, g: nat, ps: seq<nat>)
    requires Inv(mid) && StartsSoFar(w, mid, g, ps) && OnlyCalls(traffic)
    ensures Inv(Run(mid, traffic)) && StartsSoFar(w, Run(mid, traffic), g, ps) && Run(mid, traffic).pc == mid.pc
  {
    hide Inv, Apply, StartsSoFar;
    if traffic != [] {
      var n := |traffic| - 1;
      StartsServed(w, mid, traffic[..n], g, ps);
      ApplyKeeps(Run(mid, traffic[..n]), traffic[n]);
      StartPhaseFacts(w, Run(mid, traffic[..n]), g, ps);
      StartsWait(w, Run(mid, traffic[..n]), traffic[n], g, ps);
      OthersInPhase(Run(mid, traffic[..n]), traffic[n]);
    }
  }

  lemma StartPhaseFacts(w: World, mid: World, g: nat, ps: seq<nat>)
    requires StartsSoFar(w, mid, g, ps)
    ensures InStartPhase(mid, g) && g < |w.rt.groups|
    ensures mid.pc.at == 2 * |w.rt.groups[g].members| + 1 ==>
              AllStarts(mid.log[|w.log|..], w.rt.groups[g], w.rt.caps, g)
  {
    hide StartsOf;
    if mid.pc.at == 2 * |w.rt.groups[g].members| + 1 {
      assert StartsBelow(mid.log[|w.log|..], w.rt.groups[g], w.rt.caps, g, mid.pc.at);
    }
  }

  /** A turn leaves the phase going on, or ends it with the failure it logged. */
  lemma StartsTurn(w: World, mid: World, traffic: seq<Step>, ok: bool, g: nat, ps: seq<nat>) returns (more: seq<nat>)
    requires Inv(mid) && StartsSoFar(w, mid, g, ps) && OnlyCalls(traffic)
    requires mid.pc.at <= 2 * |w.rt.groups[g].members|
    ensures var after := Run(mid, traffic + [Advance(ok)]);
      if after.pc.RollingBack? then
        |w.log| <= |after.log| && after.log[..|w.log|] == w.log && StartsUpToFailure(after.log[|w.log|..], w.rt.groups[g], w.rt.caps, g)
      else StartsSoFar(w, after, g, more)
  {
    hide Inv, Apply, StartsSoFar, StartsOf;
    StartsServed(w, mid, traffic, g, ps);
    StartPhaseFacts(w, mid, g, ps);
    RunSnoc(mid, traffic, Advance(ok));
    more := StartsStep(w, Run(mid, traffic), ok, g, ps);
    var after := Run(mid, traffic + [Advance(ok)]);
    if after.pc.RollingBack? {
      assert StartsBelow(after.log[|w.log|..], w.rt.groups[g], w.rt.caps, g, mid.pc.at + 1);
    }
  }

  lemma StartsBegin(w: World, g: nat)
    requires Inv(w) && InStartPhase(w, g) && w.pc.at == 0
    ensures StartsSoFar(w, w, g, [])
  {
    StartTurnLogs(w, true, g);
    NoStartsYet(w, g);
  }

  ghost predicate SameInits(caps: seq<CapSlot>, others: seq<CapSlot>) {
    |caps| == |others| && forall s | 0 <= s < |caps| :: caps[s].initCalled == others[s].initCalled
  }

  /** Which starts run depends on the group and on which inits have succeeded. */
  lemma SameStarts(events: seq<Event>, slot: GroupSlot, caps: seq<CapSlot>, other: GroupSlot, others: seq<CapSlot>, g: nat)
    requires other.group == slot.group && other.members == slot.members && SameInits(caps, others)
    ensures AllStarts(events, slot, caps, g) <==> AllStarts(events, other, others, g)
    ensures StartsUpToFailure(events, slot, caps, g) <==> StartsUpToFailure(events, other, others, g)
  {
    forall n: nat, ps ensures StartsOf(events, slot, caps, g, n, ps) <==> StartsOf(events, other, others, g, n, ps) {
    }
    forall n: nat ensures StartsBelow(events, slot, caps, g, n) <==> StartsBelow(events, other, others, g, n) {
      if StartsBelow(events, slot, caps, g, n) {
        var ps :| StartsOf(events, slot, caps, g, n, ps);
        assert StartsOf(events, other, others, g, n, ps);
      }
      if StartsBelow(events, other, others, g, n) {
        var ps :| StartsOf(events, other, others, g, n, ps);
        assert StartsOf(events, slot, caps, g, n, ps);
      }
    }
  }

  lemma LoggedSoFar(w: World, mid: World, g: nat, ps: seq<nat>)
    requires StartsSoFar(w, mid, g, ps)
    ensures |w.log| <= |mid.log| && mid.log[..|w.log|] == w.log
  {
    hide StartsOf;
  }

  /** Calls leave alone which inits have succeeded. */
  lemma {:induction false} ServedInits(w: World, traffic: seq<Step>)
    requires OnlyCalls(traffic)
    ensures SameInits(w.rt.caps, Run(w, traffic).rt.caps) && Run(w, traffic).rt.groups == w.rt.groups
  {
    if traffic != [] {
      var n := |traffic| - 1;
      ServedInits(w, traffic[..n]);
      CallKeepsInits(Run(w, traffic[..n]), traffic[n]);
    }
  }

  lemma CallKeepsInits(w: World, step: Step)
    requires step.Admit? || step.Finish?
    ensures SameInits(w.rt.caps, Apply(w, step).rt.caps) && Apply(w, step).rt.groups == w.rt.groups
  {
    hide Admits, FindCap;
  }

  lemma StartsLoggedIs(before: seq<Event>, begun: seq<Event>, after: seq<Event>, slot: GroupSlot, caps: seq<CapSlot>,
                       other: GroupSlot, others: seq<CapSlot>, third: seq<CapSlot>, g: nat, failed: bool)
    requires other.group == slot.group && other.members == slot.members
    requires SameInits(caps, others) && SameInits(others, third)
    requires begun == before + [EnableBegan(g)] && |begun| <= |after| && after[..|begun|] == begun
    requires var events := after[|begun|..];
      if failed then StartsUpToFailure(events, other, third, g) else AllStarts(events, other, third, g)
    ensures StartsLogged(before, after, slot, caps, g, failed)
  {
    hide StartsOf, StartsBelow;
    SameInitsTogether(caps, others, third);
    SameStarts(after[|begun|..], slot, caps, other, third, g);
    assert after[..|before|] == after[..|begun|][..|before|];
    assert after[|before|] == after[..|begun|][|before|];
  }

  lemma SameInitsTogether(a: seq<CapSlot>, b: seq<CapSlot>, c: seq<CapSlot>)
    requires SameInits(a, b) && SameInits(b, c)
    ensures SameInits(a, c)
  {
  }

  /** Writing a state into a group and its members leaves the membership and the inits. */
  lemma StatesApart(rt: Runtime, g: nat, state: LifeState)
    requires g < |rt.groups|
    ensures SameMembership(rt.groups, WithState(rt, g, state).groups) && SameInits(rt.caps, WithState(rt, g, state).caps)
  {
  }

  lemma SameAsItself(groups: seq<GroupSlot>, caps: seq<CapSlot>)
    ensures SameMembership(groups, groups) && SameInits(caps, caps)
  {
  }

  lemma StateWritten(rt: Runtime)
    ensures forall g, state | 0 <= g < |rt.groups| :: WithState(rt, g, state).groups[g].state == state
  {
  }
}
