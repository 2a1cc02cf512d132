/**
 The order of lifecycle callbacks over whole runs, read off the event log
 (components/claw_cap/src/claw_cap.c, lines 1030-1103 and 1466-1530).
 Main results: InitOncePerRegistration, StartFollowsInit, StartedMeansStartsSucceeded.
 */
module CapLifecycle {
  import opened Common
  import opened CapTypes
  import opened CapRegister
  import opened CapWorld
  import opened CapInvariant
  import opened CapTheorems

  // ---- Reading the log ----

  ghost function Last(log: seq<Event>): Event requires log != [] { log[|log| - 1] }
  ghost function Front(log: seq<Event>): seq<Event> requires log != [] { log[..|log| - 1] }

  /** The descriptor that joined slot s last. */
  ghost function Current(log: seq<Event>, s: nat): Option<Descriptor> {
    if log == [] then None
    else if Last(log).Joined? && Last(log).s == s then Some(Last(log).d)
    else Current(Front(log), s)
  }

  /** Successful inits of slot s since a descriptor joined it last. */
  ghost function InitOks(log: seq<Event>, s: nat): nat {
    if log == [] then 0
    else if Last(log).Joined? && Last(log).s == s then 0
    else InitOks(Front(log), s) + if Last(log) == Ran(Init(s), true) then 1 else 0
  }

  /** The events since group slot g was last enabled. */
  ghost function LatestEnable(log: seq<Event>, g: nat): seq<Event> {
    if log == [] || Last(log) == EnableBegan(g) then []
    else LatestEnable(Front(log), g) + [Last(log)]
  }

  /** Init is never attempted after it succeeded; start is attempted only once a needed init succeeded. */
  ghost predicate Orderly(log: seq<Event>) {
    log == [] || (
      && Orderly(Front(log))
      && (Last(log).Ran? && Last(log).cb.Init? ==> InitOks(Front(log), Last(log).cb.s) == 0)
      && (Last(log).Ran? && Last(log).cb.Start? ==>
            var d := Current(Front(log), Last(log).cb.s);
            d.Some? && (d.value.hasInit ==> InitOks(Front(log), Last(log).cb.s) == 1)))
  }

  lemma Snoc(log: seq<Event>, e: Event)
    ensures log + [e] != [] && Last(log + [e]) == e && Front(log + [e]) == log
  {
  }

  // ---- The invariant ----

  ghost predicate SlotHistory(w: World, s: nat)
    requires s < |w.rt.caps|
  {
    w.rt.caps[s].occupied ==>
      && Current(w.log, s) == Some(w.rt.caps[s].descriptor)
      && InitOks(w.log, s) == if w.rt.caps[s].initCalled then 1 else 0
  }

  ghost function Limit(w: World, g: nat): nat
    requires g < |w.rt.groups|
  {
    if w.pc.Starting? && w.pc.g == g then w.pc.at else StartCallbacks(w.rt, g)
  }

  /** The first at callbacks of group g's latest enable that exist have all succeeded. */
  ghost predicate RanUpTo(w: World, g: nat, at: nat)
    requires g < |w.rt.groups|
  {
    var slot := w.rt.groups[g];
    && (0 < at && slot.group.hasStart ==> Ran(GroupStart(g), true) in LatestEnable(w.log, g))
    && forall k | 0 <= k < |slot.members| :: MemberRan(w, g, slot.members[k], k, at)
  }

  ghost predicate MemberRan(w: World, g: nat, m: nat, k: nat, at: nat) {
    m < |w.rt.caps| ==>
      && (2 * k + 1 < at && w.rt.caps[m].descriptor.hasInit ==> w.rt.caps[m].initCalled)
      && (2 * k + 2 < at && w.rt.caps[m].descriptor.hasStart ==> Ran(Start(m), true) in LatestEnable(w.log, g))
  }

  ghost predicate GroupHistory(w: World, g: nat)
    requires g < |w.rt.groups|
  {
    w.rt.groups[g].occupied && w.rt.groups[g].state == Started && !(w.pc.RollingBack? && w.pc.g == g)
    ==> RanUpTo(w, g, Limit(w, g))
  }

  ghost predicate LifeOk(w: World) {
    && Orderly(w.log)
    && (forall s | 0 <= s < |w.rt.caps| :: SlotHistory(w, s))
    && (forall g | 0 <= g < |w.rt.groups| :: GroupHistory(w, g))
  }

  // ---- Steps that add nothing relevant to the log ----

  ghost predicate Quiet(e: Event) {
    e.EnableBegan? || (e.Ran? && !e.cb.Init? && !e.cb.Start?)
  }

  /** A slot of the later table that belongs to the same registration, with the same init flag. */
  ghost predicate SlotCarried(w: World, after: World, s: nat)
    requires s < |after.rt.caps|
  {
    after.rt.caps[s].occupied ==>
      && s < |w.rt.caps| && w.rt.caps[s].occupied
      && after.rt.caps[s].descriptor == w.rt.caps[s].descriptor
      && after.rt.caps[s].initCalled == w.rt.caps[s].initCalled
  }

  /** A group seen started later was started before, by the same registration, at least as far along. */
  ghost predicate GroupCarried(w: World, after: World, g: nat)
    requires g < |after.rt.groups|
  {
    after.rt.groups[g].occupied && after.rt.groups[g].state == Started
    && !(after.pc.RollingBack? && after.pc.g == g) ==>
      && g < |w.rt.groups| && w.rt.groups[g] == after.rt.groups[g]
      && !(w.pc.RollingBack? && w.pc.g == g)
      && Limit(after, g) <= Limit(w, g)
  }

  lemma CarryGroup(w: World, after: World, g: nat)
    requires Inv(w) && Inv(after) && LifeOk(w)
    requires g < |after.rt.groups| && GroupCarried(w, after, g)
    requires forall s | 0 <= s < |after.rt.caps| :: SlotCarried(w, after, s)
    requires forall e | g < |w.rt.groups| && e in LatestEnable(w.log, g) :: e in LatestEnable(after.log, g)
    ensures GroupHistory(after, g)
  {
    if after.rt.groups[g].occupied && after.rt.groups[g].state == Started
       && !(after.pc.RollingBack? && after.pc.g == g) {
      assert GroupHistory(w, g) && GroupOk(after.rt, g);
      var members := after.rt.groups[g].members;
      forall k | 0 <= k < |members| ensures MemberRan(after, g, members[k], k, Limit(after, g)) {
        assert MemberOk(after.rt, g, k) && MemberRan(w, g, members[k], k, Limit(w, g));
        assert SlotCarried(w, after, members[k]);
      }
    }
  }

  lemma CarryLife(w: World, after: World)
    requires Inv(w) && Inv(after) && LifeOk(w) && after.log == w.log
    requires forall s | 0 <= s < |after.rt.caps| :: SlotCarried(w, after, s)
    requires forall g | 0 <= g < |after.rt.groups| :: GroupCarried(w, after, g)
    ensures LifeOk(after)
  {
    forall s | 0 <= s < |after.rt.caps| ensures SlotHistory(after, s) {
      assert SlotCarried(w, after, s);
      assert s < |w.rt.caps| ==> SlotHistory(w, s);
    }
    forall g | 0 <= g < |after.rt.groups| ensures GroupHistory(after, g) {
      CarryGroup(w, after, g);
    }
  }

  lemma CarryLifeQuiet(w: World, after: World, e: Event)
    requires Inv(w) && Inv(after) && LifeOk(w) && after.log == w.log + [e] && Quiet(e)
    requires forall s | 0 <= s < |after.rt.caps| :: SlotCarried(w, after, s)
    requires forall g | 0 <= g < |after.rt.groups| ::
               if e == EnableBegan(g) then Limit(after, g) == 0 else GroupCarried(w, after, g)
    ensures LifeOk(after)
  {
    Snoc(w.log, e);
    forall s | 0 <= s < |after.rt.caps| ensures SlotHistory(after, s) {
      assert SlotCarried(w, after, s);
      assert s < |w.rt.caps| ==> SlotHistory(w, s);
    }
    forall g | 0 <= g < |after.rt.groups| ensures GroupHistory(after, g) {
      if e != EnableBegan(g) {
        CarryGroup(w, after, g);
      }
    }
  }

  // ---- Each step ----

  lemma EnableMoveLife(w: World, groupId: string, from: Origin)
    requires Inv(w) && LifeOk(w) && w.pc == Enabling(groupId, from)
    ensures LifeOk(EnableMove(w, groupId, from))
  {
    hide LifeOk, GraphOk, CallsOk;
    var after := EnableMove(w, groupId, from);
    EnableMoveKeeps(w, groupId, from);
    if after.pc.Starting? {
      CarryLifeQuiet(w, after, EnableBegan(after.pc.g));
    } else {
      CarryLife(w, after);
    }
  }

  /** A start-phase callback ran: what it was, and what its success records. */
  lemma StartMoveLife(w: World, g: nat, at: nat, from: Origin, ok: bool)
    requires Inv(w) && LifeOk(w) && w.pc == Starting(g, at, from)
    ensures LifeOk(StartMove(w, g, at, from, ok))
  {
    hide CallsOk, GraphOk, SlotHistory, GroupHistory;
    var after := StartMove(w, g, at, from, ok);
    StartMoveKeeps(w, g, at, from, ok);
    if at >= StartCallbacks(w.rt, g) {
      CarryLife(w, after);
    } else {
      if StartCallback(w.rt, g, at).Some? {
        StartCallbackOrderly(w, g, at, ok);
      }
      forall s | 0 <= s < |after.rt.caps| ensures SlotHistory(after, s) {
        StartMoveSlot(w, g, at, from, ok, s);
      }
      forall h | 0 <= h < |after.rt.groups| ensures GroupHistory(after, h) {
        StartMoveGroup(w, g, at, from, ok, h);
      }
    }
  }

  lemma StartMoveSlot(w: World, g: nat, at: nat, from: Origin, ok: bool, s: nat)
    requires Inv(w) && LifeOk(w) && w.pc == Starting(g, at, from) && at < StartCallbacks(w.rt, g)
    requires s < |w.rt.caps|
    ensures SlotHistory(StartMove(w, g, at, from, ok), s)
  {
    hide CallsOk, Orderly, NamesDistinct, GroupHistory;
    var cb := StartCallback(w.rt, g, at);
    assert GroupOk(w.rt, g) && SlotHistory(w, s);
    if cb.Some? {
      Snoc(w.log, Ran(cb.value, ok));
      if at > 0 {
        assert MemberOk(w.rt, g, (at - 1) / 2);
      }
    }
  }

  lemma StartCallbackOrderly(w: World, g: nat, at: nat, ok: bool)
    requires Inv(w) && LifeOk(w) && w.pc.Starting? && w.pc.g == g && w.pc.at == at
    requires at < StartCallbacks(w.rt, g) && StartCallback(w.rt, g, at).Some?
    ensures Orderly(w.log + [Ran(StartCallback(w.rt, g, at).value, ok)])
  {
    var cb := StartCallback(w.rt, g, at).value;
    Snoc(w.log, Ran(cb, ok));
    if at > 0 {
      var k := (at - 1) / 2;
      var m := w.rt.groups[g].members[k];
      assert GroupOk(w.rt, g) && MemberOk(w.rt, g, k) && SlotHistory(w, m);
      assert GroupHistory(w, g) && MemberRan(w, g, m, k, at);
    }
  }

  lemma StartMoveGroup(w: World, g: nat, at: nat, from: Origin, ok: bool, h: nat)
    requires Inv(w) && LifeOk(w) && w.pc == Starting(g, at, from) && at < StartCallbacks(w.rt, g)
    requires h < |w.rt.groups|
    ensures GroupHistory(StartMove(w, g, at, from, ok), h)
  {
    hide GraphOk, CallsOk, StateOk, Orderly, SlotHistory, LatestEnable, MemberRan;
    var after := StartMove(w, g, at, from, ok);
    var slot := w.rt.groups[h];
    assert GroupHistory(w, h);
    if slot.occupied && slot.state == Started && !(after.pc.RollingBack? && h == g) {
      StartMoveLatest(w, g, at, from, ok, h);
      forall k | 0 <= k < |slot.members| ensures MemberRan(after, h, slot.members[k], k, Limit(after, h)) {
        StartMoveMember(w, g, at, from, ok, h, k);
      }
    }
  }

  /** A start-phase callback is added to every group's latest enable. */
  lemma StartMoveLatest(w: World, g: nat, at: nat, from: Origin, ok: bool, h: nat)
    requires g < |w.rt.groups| && at < StartCallbacks(w.rt, g)
    ensures var cb := StartCallback(w.rt, g, at);
      LatestEnable(StartMove(w, g, at, from, ok).log, h)
      == LatestEnable(w.log, h) + if cb.Some? then [Ran(cb.value, ok)] else []
  {
    var cb := StartCallback(w.rt, g, at);
    if cb.Some? {
      Snoc(w.log, Ran(cb.value, ok));
    }
  }

  lemma StartMoveMember(w: World, g: nat, at: nat, from: Origin, ok: bool, h: nat, k: nat)
    requires Inv(w) && w.pc == Starting(g, at, from) && at < StartCallbacks(w.rt, g)
    requires h < |w.rt.groups| && w.rt.groups[h].occupied && k < |w.rt.groups[h].members|
    requires MemberRan(w, h, w.rt.groups[h].members[k], k, Limit(w, h))
    requires !(StartMove(w, g, at, from, ok).pc.RollingBack? && h == g)
    ensures var after := StartMove(w, g, at, from, ok);
      MemberRan(after, h, w.rt.groups[h].members[k], k, Limit(after, h))
  {
    hide CallsOk, NamesDistinct, StateOk, CapOk, LatestEnable;
    assert GroupOk(w.rt, h) && MemberOk(w.rt, h, k);
    StartMoveLatest(w, g, at, from, ok, h);
  }

  lemma StopPhaseLife(w: World, after: World, g: nat, at: nat, ok: bool)
    requires Inv(w) && Inv(after) && LifeOk(w) && g < |w.rt.groups| && !w.pc.RollingBack?
    requires after.rt == w.rt && !after.pc.Starting? && !after.pc.RollingBack? && !w.pc.Starting?
    requires var cb := StopCallback(w.rt, g, at); after.log == if cb.Some? then w.log + [Ran(cb.value, ok)] else w.log
    ensures LifeOk(after)
  {
    var cb := StopCallback(w.rt, g, at);
    if cb.Some? {
      CarryLifeQuiet(w, after, Ran(cb.value, ok));
    } else {
      CarryLife(w, after);
    }
  }

  lemma RollbackMoveLife(w: World, g: nat, from: Origin)
    requires Inv(w) && LifeOk(w) && w.pc == RollingBack(g, from)
    ensures LifeOk(RollbackMove(w, g, from))
  {
    RollbackMoveKeeps(w, g, from);
    CarryLife(w, RollbackMove(w, g, from));
  }

  lemma DisableMoveLife(w: World, groupId: string, from: Origin)
    requires Inv(w) && LifeOk(w) && w.pc == Disabling(groupId, from)
    ensures LifeOk(DisableMove(w, groupId, from))
  {
    hide LifeOk, GraphOk, CallsOk;
    DisableMoveKeeps(w, groupId, from);
    CarryLife(w, DisableMove(w, groupId, from));
  }

  lemma DrainMoveLife(w: World, g: nat, timeRemains: bool)
    requires Inv(w) && LifeOk(w) && w.pc == DrainWait(g)
    ensures LifeOk(DrainMove(w, g, timeRemains))
  {
    hide LifeOk, GraphOk, CallsOk;
    DrainMoveKeeps(w, g, timeRemains);
    CarryLife(w, DrainMove(w, g, timeRemains));
  }

  lemma StopMoveLife(w: World, g: nat, at: nat, from: Origin, ok: bool)
    requires Inv(w) && LifeOk(w) && w.pc == Stopping(g, at, from)
    ensures LifeOk(StopMove(w, g, at, from, ok))
  {
    var after := StopMove(w, g, at, from, ok);
    StopMoveKeeps(w, g, at, from, ok);
    if at >= StopCallbacks(w.rt, g) { CarryLife(w, after); } else { StopPhaseLife(w, after, g, at, ok); }
  }

  lemma UnloadMoveLife(w: World, g: nat, at: nat, ok: bool)
    requires Inv(w) && LifeOk(w) && w.pc == Unload(g, at)
    ensures LifeOk(UnloadMove(w, g, at, ok))
  {
    hide LifeOk, GraphOk, CallsOk;
    var after := UnloadMove(w, g, at, ok);
    UnloadMoveKeeps(w, g, at, ok);
    if at >= StopCallbacks(w.rt, g) { CarryLife(w, after); } else { StopPhaseLife(w, after, g, at, ok); }
  }

  lemma WalkMoveLife(w: World, ok: bool)
    requires Inv(w) && LifeOk(w) && (w.pc.StartWalk? || w.pc.StopWalk?)
    ensures LifeOk(AdvanceStep(w, ok))
  {
    hide Inv, LifeOk;
    AdvanceKeeps(w, ok);
    match w.pc
    case StartWalk(i) => CarryLife(w, StartWalkMove(w, i));
    case StopWalk(i) => CarryLife(w, StopWalkMove(w, i));
  }

  lemma AdvanceLife(w: World, ok: bool)
    requires Inv(w) && LifeOk(w)
    ensures LifeOk(AdvanceStep(w, ok))
  {
    hide LifeOk, Inv;
    match w.pc
    case Idle =>
    case Enabling(groupId, from) => EnableMoveLife(w, groupId, from);
    case Starting(g, at, from) => StartMoveLife(w, g, at, from, ok);
    case Stopping(g, at, from) => StopMoveLife(w, g, at, from, ok);
    case Unload(g, at) => UnloadMoveLife(w, g, at, ok);
    case StartWalk(i) => WalkMoveLife(w, ok);
    case StopWalk(i) => WalkMoveLife(w, ok);
    case RollingBack(g, from) => RollbackMoveLife(w, g, from);
    case Disabling(groupId, from) => DisableMoveLife(w, groupId, from);
    case DrainWait(g) => DrainMoveLife(w, g, ok);
  }

  // ---- Registration ----

  lemma JoinRead(log: seq<Event>, m: nat, d: Descriptor, s: nat)
    ensures Orderly(log + [Joined(m, d)]) == Orderly(log)
    ensures Current(log + [Joined(m, d)], s) == if m == s then Some(d) else Current(log, s)
    ensures InitOks(log + [Joined(m, d)], s) == if m == s then 0 else InitOks(log, s)
  {
    Snoc(log, Joined(m, d));
  }

  /** Appending the joins of distinct slots: each gets its descriptor and a clean init count. */
  lemma {:induction false} JoinsRead(log: seq<Event>, members: seq<nat>, ds: seq<Descriptor>, s: nat)
    requires |members| == |ds| && Distinct(members) && Orderly(log)
    ensures Orderly(log + JoinEvents(members, ds))
    ensures s !in members ==>
              && Current(log + JoinEvents(members, ds), s) == Current(log, s)
              && InitOks(log + JoinEvents(members, ds), s) == InitOks(log, s)
    ensures forall k | 0 <= k < |members| && members[k] == s ::
              && Current(log + JoinEvents(members, ds), s) == Some(ds[k])
              && InitOks(log + JoinEvents(members, ds), s) == 0
  {
    hide Orderly, Current, InitOks;
    var joins := JoinEvents(members, ds);
    if members == [] {
      assert log + joins == log;
    } else {
      var n := |members| - 1;
      var front := JoinEvents(members[..n], ds[..n]);
      assert joins == front + [Joined(members[n], ds[n])];
      assert log + joins == (log + front) + [Joined(members[n], ds[n])];
      JoinRead(log + front, members[n], ds[n], s);
      JoinsRead(log, members[..n], ds[..n], s);
      assert members == members[..n] + [members[n]];
    }
  }

  lemma {:induction false} JoinsKeepLatest(log: seq<Event>, members: seq<nat>, ds: seq<Descriptor>, g: nat)
    requires |members| == |ds|
    ensures forall e | e in LatestEnable(log, g) :: e in LatestEnable(log + JoinEvents(members, ds), g)
  {
    var joins := JoinEvents(members, ds);
    if members == [] {
      assert log + joins == log;
    } else {
      var n := |members| - 1;
      var front := JoinEvents(members[..n], ds[..n]);
      assert log + joins == (log + front) + [Joined(members[n], ds[n])];
      Snoc(log + front, Joined(members[n], ds[n]));
      JoinsKeepLatest(log, members[..n], ds[..n], g);
    }
  }

  lemma RegisterStepLife(w: World, group: Group, initOk: bool, alloc: Allocation)
    requires Inv(w) && LifeOk(w) && w.pc.Idle?
    ensures LifeOk(RegisterStep(w, group, initOk, alloc))
  {
    hide CallsOk, NamesDistinct, StateOk, RegisterGroup;
    var r := RegisterGroup(w.rt, group, initOk, alloc);
    var after := RegisterStep(w, group, initOk, alloc);
    RegisterStepKeeps(w, group, initOk, alloc);
    RegisterKeepsGraph(w.rt, group, initOk, alloc);
    if r.err != Err.Ok {
      CarryLife(w, after);
    } else {
      var members := r.rt.groups[r.slot].members;
      var ds := group.descriptors;
      assert GroupOk(r.rt, r.slot);
      JoinsRead(w.log, members, ds, 0);
      forall s | 0 <= s < |after.rt.caps| ensures SlotHistory(after, s) {
        JoinsRead(w.log, members, ds, s);
        if s in members {
          var k :| 0 <= k < |members| && members[k] == s;
          assert MemberOk(r.rt, r.slot, k);
        } else if after.rt.caps[s].occupied {
          assert SlotHistory(w, s);
        }
      }
      forall g | 0 <= g < |after.rt.groups| ensures GroupHistory(after, g) {
        if g != r.slot && after.rt.groups[g].occupied {
          JoinsKeepLatest(w.log, members, ds, g);
          RegisterGroupHistory(w, after, g);
        }
      }
    }
  }

  /** Registering another group does not touch a started group's history. */
  lemma RegisterGroupHistory(w: World, after: World, g: nat)
    requires Inv(w) && LifeOk(w) && GraphOk(after.rt) && w.pc.Idle? && !after.pc.Starting? && !after.pc.RollingBack?
    requires g < |w.rt.groups| && g < |after.rt.groups| && w.rt.groups[g] == after.rt.groups[g]
    requires |w.rt.caps| <= |after.rt.caps|
    requires forall s | 0 <= s < |w.rt.caps| && w.rt.caps[s].occupied :: after.rt.caps[s] == w.rt.caps[s]
    requires forall e | e in LatestEnable(w.log, g) :: e in LatestEnable(after.log, g)
    ensures GroupHistory(after, g)
  {
    assert GroupHistory(w, g) && GroupOk(w.rt, g);
    var slot := w.rt.groups[g];
    if slot.occupied && slot.state == Started {
      forall k | 0 <= k < |slot.members| ensures MemberRan(after, g, slot.members[k], k, Limit(after, g)) {
        assert MemberOk(w.rt, g, k) && MemberRan(w, g, slot.members[k], k, Limit(w, g));
      }
    }
  }

  lemma UnregisterStepLife(w: World, groupId: string)
    requires Inv(w) && LifeOk(w) && w.pc.Idle? && Inv(UnregisterStep(w, groupId))
    ensures LifeOk(UnregisterStep(w, groupId))
  {
    hide LifeOk, Inv;
    CarryLife(w, UnregisterStep(w, groupId));
  }

  lemma AdminStepLife(w: World, step: Step)
    requires Inv(w) && LifeOk(w)
    ensures LifeOk(AdminStep(w, step))
  {
    hide LifeOk, Inv, RegisterStep, UnregisterStep;
    if w.pc.Idle? {
      AdminStepKeeps(w, step);
      match step
      case Register(group, initOk, alloc) => RegisterStepLife(w, group, initOk, alloc);
      case Unregister(groupId) => UnregisterStepLife(w, groupId);
      case _ => CarryLife(w, AdminStep(w, step));
    }
  }

  lemma CallStepLife(w: World, step: Step)
    requires Inv(w) && LifeOk(w) && (step.Admit? || step.Finish?)
    ensures LifeOk(Apply(w, step))
  {
    hide LifeOk, Inv, Admits;
    ApplyKeeps(w, step);
    CarryLife(w, Apply(w, step));
  }

  lemma ApplyLife(w: World, step: Step)
    requires Inv(w) && LifeOk(w)
    ensures LifeOk(Apply(w, step))
  {
    hide LifeOk, Inv, AdminStep, AdvanceStep;
    match step
    case Admit(call, target, ctx) => CallStepLife(w, step);
    case Finish(call) => CallStepLife(w, step);
    case Advance(ok) => AdvanceLife(w, ok);
    case SetVisible(groups) => ApplyKeeps(w, step); CarryLife(w, Apply(w, step));
    case SetSession(session, groups) => ApplyKeeps(w, step); CarryLife(w, Apply(w, step));
    case _ => AdminStepLife(w, step);
  }

  lemma {:induction false} RunLife(steps: seq<Step>)
    ensures Inv(Run(EMPTY, steps)) && LifeOk(Run(EMPTY, steps))
  {
    RunKeeps(EMPTY, steps);
    if steps != [] {
      var before := steps[..|steps| - 1];
      RunLife(before);
      ApplyLife(Run(EMPTY, before), steps[|steps| - 1]);
    }
  }

  lemma LifeAlways(w: World)
    requires Reachable(w)
    ensures Inv(w) && LifeOk(w)
  {
    var steps :| Run(EMPTY, steps) == w;
    RunLife(steps);
  }

  // ---- The log itself ----

  lemma {:induction false} OrderlyPrefix(log: seq<Event>, n: nat)
    requires Orderly(log) && n <= |log|
    ensures Orderly(log[..n])
    decreases |log|
  {
    if n == |log| {
      assert log[..n] == log;
    } else {
      OrderlyPrefix(Front(log), n);
      assert Front(log)[..n] == log[..n];
    }
  }

  /** A successful init is still counted as long as nothing has joined the slot since. */
  lemma {:induction false} InitRemembered(log: seq<Event>, s: nat, i: nat)
    requires i < |log| && log[i] == Ran(Init(s), true)
    requires forall k | i < k < |log| :: !(log[k].Joined? && log[k].s == s)
    ensures InitOks(log, s) >= 1
  {
    if i < |log| - 1 {
      InitRemembered(Front(log), s, i);
    }
  }

  /** And a counted init can be pointed to. */
  lemma {:induction false} InitFound(log: seq<Event>, s: nat) returns (i: nat)
    requires InitOks(log, s) >= 1
    ensures i < |log| && log[i] == Ran(Init(s), true)
    ensures forall k | i < k < |log| :: !(log[k].Joined? && log[k].s == s)
  {
    if Last(log) == Ran(Init(s), true) {
      i := |log| - 1;
    } else {
      i := InitFound(Front(log), s);
    }
  }

  /** Between two init callbacks of one slot, the first successful, another descriptor joined the slot. */
  lemma InitOncePerRegistration(w: World, s: nat, i: nat, j: nat)
    requires Reachable(w) && i < j < |w.log|
    requires w.log[i] == Ran(Init(s), true) && w.log[j].Ran? && w.log[j].cb == Init(s)
    ensures exists k | i < k < j :: w.log[k].Joined? && w.log[k].s == s
  {
    hide Inv;
    LifeAlways(w);
    OrderlyPrefix(w.log, j + 1);
    var prefix := w.log[..j + 1];
    assert Front(prefix) == w.log[..j] && Last(prefix) == w.log[j];
    if forall k | i < k < j :: !(w.log[k].Joined? && w.log[k].s == s) {
      InitRemembered(w.log[..j], s, i);
    }
  }

  /** Every start callback of a descriptor that has an init comes after that init succeeded, in the same registration. */
  lemma StartFollowsInit(w: World, s: nat, j: nat)
    requires Reachable(w) && j < |w.log| && w.log[j].Ran? && w.log[j].cb == Start(s)
    ensures Current(w.log[..j], s).Some?
    ensures Current(w.log[..j], s).value.hasInit ==>
              exists i | 0 <= i < j :: w.log[i] == Ran(Init(s), true)
                && forall k | i < k < j :: !(w.log[k].Joined? && w.log[k].s == s)
  {
    LifeAlways(w);
    OrderlyPrefix(w.log, j + 1);
    var prefix := w.log[..j + 1];
    assert Front(prefix) == w.log[..j] && Last(prefix) == w.log[j];
    if Current(w.log[..j], s).value.hasInit {
      var i := InitFound(w.log[..j], s);
      assert w.log[..j][i] == w.log[i];
      assert forall k | i < k < j :: w.log[..j][k] == w.log[k];
    }
  }

  /**
   A group seen started while no enable is working on it: its group start and the start of every
   member that has one succeeded in its latest enable, and every member's init has succeeded.
   */
  lemma StartedMeansStartsSucceeded(w: World, g: nat)
    requires Reachable(w) && g < |w.rt.groups| && w.rt.groups[g].occupied && w.rt.groups[g].state == Started
    requires !(w.pc.Starting? && w.pc.g == g) && !(w.pc.RollingBack? && w.pc.g == g)
    ensures w.rt.groups[g].group.hasStart ==> Ran(GroupStart(g), true) in LatestEnable(w.log, g)
    ensures forall m | m in w.rt.groups[g].members ::
              && m < |w.rt.caps|
              && (w.rt.caps[m].descriptor.hasInit ==> w.rt.caps[m].initCalled)
              && (w.rt.caps[m].descriptor.hasStart ==> Ran(Start(m), true) in LatestEnable(w.log, g))
  {
    LifeAlways(w);
    assert GroupHistory(w, g) && GroupOk(w.rt, g);
    var members := w.rt.groups[g].members;
    forall m | m in members
      ensures m < |w.rt.caps|
      ensures w.rt.caps[m].descriptor.hasInit ==> w.rt.caps[m].initCalled
      ensures w.rt.caps[m].descriptor.hasStart ==> Ran(Start(m), true) in LatestEnable(w.log, g)
    {
      var k :| 0 <= k < |members| && members[k] == m;
      assert MemberOk(w.rt, g, k) && MemberRan(w, g, m, k, StartCallbacks(w.rt, g));
    }
  }
}
