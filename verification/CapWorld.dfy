/**
 The registry as a state machine over its locked regions (components/claw_cap/src/claw_cap.c).

 Any number of calls are in flight at once; each is admitted in one locked region and accounted
 for in another (lines 1823-1868). Administrative operations run one at a time: pc says where the
 running one stands between two of its locked regions or callbacks. A run is any sequence of
 steps; a step that is not possible in the state it meets leaves that state alone.
 */
module CapWorld {
  import opened Common
  import opened CapVisibility
  import opened CapTypes
  import opened CapRegister

  /** Who asked for an enable or disable: a caller, or start_all / stop_all about to look at slot next. */
  datatype Origin = Direct | FromStartAll(next: nat) | FromStopAll(next: nat)

  datatype Pc =
    | Idle
    | Enabling(groupId: string, from: Origin)
    | Starting(g: nat, at: nat, from: Origin)
    | RollingBack(g: nat, from: Origin)
    | Disabling(groupId: string, from: Origin)
    | Stopping(g: nat, at: nat, from: Origin)
    | DrainWait(g: nat)
    | Unload(g: nat, at: nat)
    | StartWalk(next: nat)
    | StopWalk(next: nat)

  datatype Callback = GroupStart(g: nat) | GroupStop(g: nat) | Init(s: nat) | Start(s: nat) | Stop(s: nat)

  datatype Event =
    | Joined(s: nat, d: Descriptor)   // slot s was handed to a newly registered descriptor
    | EnableBegan(g: nat)
    | Ran(cb: Callback, ok: bool)

  datatype World = World(rt: Runtime, calls: map<CallId, nat>, pc: Pc, log: seq<Event>)

  datatype Step =
    | Admit(call: CallId, target: string, ctx: Option<Context>)
    | Finish(call: CallId)
    | Register(group: Group, initOk: bool, alloc: Allocation)
    | Enable(groupId: string)
    | Disable(groupId: string)
    | Unregister(groupId: string)
    | StartAll
    | StopAll
    | Advance(ok: bool)   // next move of the running operation; ok: the callback succeeds, or time remains
    | SetVisible(groups: seq<string>)
    | SetSession(session: string, groups: seq<string>)

  const EMPTY := World(Runtime(false, [], [], [], []), map[], Idle, [])

  // ---- Calls ----

  function AdmitStep(w: World, call: CallId, target: string, ctx: Option<Context>): World {
    match FindCap(w.rt.caps, target)
    case None => w
    case Some(s) =>
      var slot := w.rt.caps[s];
      if call in w.calls || !Admits(w.rt, slot, ctx) then w
      else
        w.(rt := w.rt.(caps := w.rt.caps[s := slot.(activeCalls := (slot.activeCalls + 1) % WORD)]),
           calls := w.calls[call := s])
  }

  /** The guards the code puts around its decrement. */
  predicate DecrementGuards(rt: Runtime, s: nat) {
    s < |rt.caps| && rt.caps[s].occupied && rt.caps[s].activeCalls > 0
  }

  function FinishStep(w: World, call: CallId): World {
    if call !in w.calls then w
    else
      var s := w.calls[call];
      var done := w.(calls := w.calls - {call});
      if DecrementGuards(w.rt, s) then
        done.(rt := w.rt.(caps := w.rt.caps[s := w.rt.caps[s].(activeCalls := w.rt.caps[s].activeCalls - 1)]))
      else done
  }

  // ---- Locked regions of enable and disable ----

  datatype Locked = Locked(err: Err, rt: Runtime)

  function EnableLocked(rt: Runtime, g: nat): Locked
    requires g < |rt.groups|
  {
    var slot := rt.groups[g];
    if !slot.occupied then Locked(NotFound, rt)
    else if slot.state == Draining || slot.state == Unloading then Locked(InvalidState, rt)
    else Locked(Err.Ok, WithState(rt, g, if rt.started then Started else Registered))
  }

  function DisableLocked(rt: Runtime, g: nat): Locked
    requires g < |rt.groups|
  {
    var slot := rt.groups[g];
    if !slot.occupied then Locked(NotFound, rt)
    else if slot.state == Disabled then Locked(Err.Ok, rt)
    else if slot.state == Draining || slot.state == Unloading then Locked(InvalidState, rt)
    else Locked(Err.Ok, WithState(rt, g, Disabled))
  }

  function StartLocked(rt: Runtime, g: nat): Locked
    requires g < |rt.groups|
  {
    var slot := rt.groups[g];
    if !slot.occupied || slot.state == Started then Locked(Err.Ok, rt)
    else if slot.state == Draining || slot.state == Unloading then Locked(InvalidState, rt)
    else Locked(Err.Ok, WithState(rt, g, Started))
  }

  // ---- Lifecycle callbacks ----

  /**
   Callback number at of claw_cap_start_group_callbacks: the group's start, then for each member
   in order its init (unless it succeeded before) and its start.
   */
  function StartCallback(rt: Runtime, g: nat, at: nat): Option<Callback>
    requires g < |rt.groups|
  {
    var slot := rt.groups[g];
    if at == 0 then (if slot.group.hasStart then Some(GroupStart(g)) else None)
    else
      var k := (at - 1) / 2;
      if k >= |slot.members| || slot.members[k] >= |rt.caps| then None
      else
        var m := slot.members[k];
        if at % 2 == 1 then
          (if !rt.caps[m].initCalled && rt.caps[m].descriptor.hasInit then Some(Init(m)) else None)
        else if rt.caps[m].descriptor.hasStart then Some(Start(m)) else None
  }

  function StartCallbacks(rt: Runtime, g: nat): nat
    requires g < |rt.groups|
  {
    2 * |rt.groups[g].members| + 1
  }

  /** Callback number at of claw_cap_stop_group_callbacks: members last to first, then the group. */
  function StopCallback(rt: Runtime, g: nat, at: nat): Option<Callback>
    requires g < |rt.groups|
  {
    var slot := rt.groups[g];
    var n := |slot.members|;
    if at >= n then (if at == n && slot.group.hasStop then Some(GroupStop(g)) else None)
    else
      var m := slot.members[n - 1 - at];
      if m < |rt.caps| && rt.caps[m].descriptor.hasStop then Some(Stop(m)) else None
  }

  function StopCallbacks(rt: Runtime, g: nat): nat
    requires g < |rt.groups|
  {
    |rt.groups[g].members| + 1
  }

  function MarkInit(rt: Runtime, cb: Callback): Runtime {
    if cb.Init? && cb.s < |rt.caps| then rt.(caps := rt.caps[cb.s := rt.caps[cb.s].(initCalled := true)]) else rt
  }

  // ---- Moves of the running administrative operation ----

  function Resume(from: Origin): Pc {
    match from
    case Direct => Idle
    case FromStartAll(i) => StartWalk(i)
    case FromStopAll(i) => StopWalk(i)
  }

  function EnableMove(w: World, groupId: string, from: Origin): World {
    var back := w.(pc := Resume(from));
    match FindGroup(w.rt.groups, groupId)
    case None => back
    case Some(g) =>
      var locked := EnableLocked(w.rt, g);
      if !w.rt.started then back.(rt := locked.rt)
      else if w.rt.groups[g].state == Started then back
      else if locked.err != Err.Ok then back
      else w.(rt := locked.rt, pc := Starting(g, 0, from), log := w.log + [EnableBegan(g)])
  }

  function StartMove(w: World, g: nat, at: nat, from: Origin, ok: bool): World {
    if g >= |w.rt.groups| then w
    else if at >= StartCallbacks(w.rt, g) then w.(rt := StartLocked(w.rt, g).rt, pc := Resume(from))
    else match StartCallback(w.rt, g, at)
      case None => w.(pc := Starting(g, at + 1, from))
      case Some(cb) =>
        var ran := w.(log := w.log + [Ran(cb, ok)]);
        if !ok then ran.(pc := RollingBack(g, from))
        else ran.(rt := MarkInit(w.rt, cb), pc := Starting(g, at + 1, from))
  }

  function RollbackMove(w: World, g: nat, from: Origin): World {
    if g >= |w.rt.groups| then w
    else w.(rt := DisableLocked(w.rt, g).rt, pc := Resume(from))
  }

  function DisableMove(w: World, groupId: string, from: Origin): World {
    var back := w.(pc := Resume(from));
    match FindGroup(w.rt.groups, groupId)
    case None => back
    case Some(g) =>
      var locked := DisableLocked(w.rt, g);
      if w.rt.groups[g].state == Disabled || locked.err != Err.Ok then back
      else w.(rt := locked.rt, pc := Stopping(g, 0, from))
  }

  function StopMove(w: World, g: nat, at: nat, from: Origin, ok: bool): World {
    if g >= |w.rt.groups| then w
    else if at >= StopCallbacks(w.rt, g) then w.(pc := Resume(from))
    else
      var next := w.(pc := Stopping(g, at + 1, from));
      match StopCallback(w.rt, g, at)
      case None => next
      case Some(cb) => next.(log := w.log + [Ran(cb, ok)])
  }

  /** One turn of the wait loop: unload when no member is busy, give up when time has run out. */
  function DrainMove(w: World, g: nat, timeRemains: bool): World {
    if g >= |w.rt.groups| then w
    else if !Busy(w.rt, g) then w.(rt := WithState(w.rt, g, Unloading), pc := Unload(g, 0))
    else if timeRemains then w
    else w.(pc := Idle)
  }

  function UnloadMove(w: World, g: nat, at: nat, ok: bool): World {
    if g >= |w.rt.groups| then w
    else if at >= StopCallbacks(w.rt, g) then w.(rt := Cleared(w.rt, g), pc := Idle)
    else
      var next := w.(pc := Unload(g, at + 1));
      match StopCallback(w.rt, g, at)
      case None => next
      case Some(cb) => next.(log := w.log + [Ran(cb, ok)])
  }

  function StartWalkMove(w: World, i: nat): World {
    if i >= |w.rt.groups| then w.(pc := Idle)
    else if !w.rt.groups[i].occupied || w.rt.groups[i].state == Disabled then w.(pc := StartWalk(i + 1))
    else w.(pc := Enabling(w.rt.groups[i].group.groupId, FromStartAll(i + 1)))
  }

  function StopWalkMove(w: World, i: nat): World {
    if i >= |w.rt.groups| then w.(rt := w.rt.(started := false), pc := Idle)
    else if !w.rt.groups[i].occupied || w.rt.groups[i].state != Started then w.(pc := StopWalk(i + 1))
    else w.(pc := Disabling(w.rt.groups[i].group.groupId, FromStopAll(i + 1)))
  }

  function AdvanceStep(w: World, ok: bool): World {
    match w.pc
    case Idle => w
    case Enabling(groupId, from) => EnableMove(w, groupId, from)
    case Starting(g, at, from) => StartMove(w, g, at, from, ok)
    case RollingBack(g, from) => RollbackMove(w, g, from)
    case Disabling(groupId, from) => DisableMove(w, groupId, from)
    case Stopping(g, at, from) => StopMove(w, g, at, from, ok)
    case DrainWait(g) => DrainMove(w, g, ok)
    case Unload(g, at) => UnloadMove(w, g, at, ok)
    case StartWalk(i) => StartWalkMove(w, i)
    case StopWalk(i) => StopWalkMove(w, i)
  }

  // ---- Administrative operations, first move ----

  function JoinEvents(members: seq<nat>, ds: seq<Descriptor>): seq<Event> {
    seq(|members|, k requires 0 <= k < |members| =>
      Joined(members[k], if k < |ds| then ds[k] else NO_DESCRIPTOR))
  }

  function RegisterStep(w: World, group: Group, initOk: bool, alloc: Allocation): World {
    var r := RegisterGroup(w.rt, group, initOk, alloc);
    if r.err != Err.Ok || r.slot >= |r.rt.groups| then w.(rt := r.rt)
    else
      w.(rt := r.rt,
         log := w.log + JoinEvents(r.rt.groups[r.slot].members, group.descriptors),
         pc := if w.rt.started then Enabling(group.groupId, Direct) else Idle)
  }

  function UnregisterStep(w: World, groupId: string): World {
    match FindGroup(w.rt.groups, groupId)
    case None => w
    case Some(g) =>
      if w.rt.groups[g].state == Unloading then w
      else w.(rt := WithState(w.rt, g, Draining), pc := DrainWait(g))
  }

  function AdminStep(w: World, step: Step): World {
    if !w.pc.Idle? then w
    else match step
      case Register(group, initOk, alloc) => RegisterStep(w, group, initOk, alloc)
      case Enable(groupId) => w.(pc := Enabling(groupId, Direct))
      case Disable(groupId) => w.(pc := Disabling(groupId, Direct))
      case Unregister(groupId) => UnregisterStep(w, groupId)
      case StartAll => if w.rt.started then w else w.(rt := w.rt.(started := true), pc := StartWalk(0))
      case StopAll => w.(pc := StopWalk(0))
      case _ => w
  }

  function Apply(w: World, step: Step): World {
    match step
    case Admit(call, target, ctx) => AdmitStep(w, call, target, ctx)
    case Finish(call) => FinishStep(w, call)
    case Advance(ok) => AdvanceStep(w, ok)
    case SetVisible(groups) => if "" in groups then w else w.(rt := w.rt.(visible := groups))
    case SetSession(session, groups) =>
      if session == "" || "" in groups then w
      else w.(rt := w.rt.(sessions := Updated(w.rt.sessions, session, groups)))
    case _ => AdminStep(w, step)
  }

  function Run(w: World, steps: seq<Step>): World {
    if steps == [] then w else Apply(Run(w, steps[..|steps| - 1]), steps[|steps| - 1])
  }

  lemma NoSteps(w: World)
    ensures Run(w, []) == w
  {
  }

  lemma RunSnoc(w: World, steps: seq<Step>, step: Step)
    ensures Run(w, steps + [step]) == Apply(Run(w, steps), step)
  {
    assert (steps + [step])[..|steps|] == steps;
  }

  lemma {:induction false} RunConcat(w: World, a: seq<Step>, b: seq<Step>)
    ensures Run(w, a + b) == Run(Run(w, a), b)
    decreases |b|
  {
    hide Apply;
    if b == [] {
      assert a + b == a;
    } else {
      var front := b[..|b| - 1];
      assert (a + b)[..|a + b| - 1] == a + front;
      RunConcat(w, a, front);
    }
  }
}
