/**
 The slot tables of the capability registry and everything its locked regions read or write
 (components/claw_cap/src/claw_cap.c). Absent C strings are the empty string, which the code
 treats alike; a callback pointer is a flag saying whether it is set.
 */
module CapTypes {
  import opened Common
  import opened CapVisibility

  datatype LifeState = Registered | Started | Disabled | Draining | Unloading
  datatype Kind = Callable | EventSource | Hybrid
  datatype CallerKind = System | Agent | Console | SubAgent

  datatype Descriptor = Descriptor(
    id: string, name: string, kind: Kind,
    callableByLlm: bool, rootAgentOnly: bool,
    hasInit: bool, hasStart: bool, hasStop: bool, hasExecute: bool)

  datatype Group = Group(
    groupId: string, descriptors: seq<Descriptor>,
    hasInit: bool, hasStart: bool, hasStop: bool)

  datatype CapSlot = CapSlot(
    occupied: bool, descriptor: Descriptor, groupSlot: nat,
    state: LifeState, initCalled: bool, activeCalls: nat)

  datatype GroupSlot = GroupSlot(
    occupied: bool, group: Group, state: LifeState, members: seq<nat>, groupInitCalled: bool)

  const NO_DESCRIPTOR := Descriptor("", "", Callable, false, false, false, false, false, false)
  const NO_GROUP := Group("", [], false, false, false)
  const FREE_CAP := CapSlot(false, NO_DESCRIPTOR, 0, Registered, false, 0)
  const FREE_GROUP := GroupSlot(false, NO_GROUP, Registered, [], false)

  datatype Runtime = Runtime(
    started: bool,
    groups: seq<GroupSlot>,
    caps: seq<CapSlot>,
    visible: seq<string>,
    sessions: seq<Session>)

  datatype Context = Context(caller: CallerKind, session: string)

  /** A call in flight is known by the address of its own stack frame: a non-null 32-bit value. */
  type CallId = c: int | 1 <= c < WORD witness 1

  // ---- Searches ----

  predicate Answers(slot: CapSlot, target: string) {
    slot.occupied && (slot.descriptor.id == target || slot.descriptor.name == target)
  }

  /** First occupied slot whose id or name is the target. */
  function FindCap(caps: seq<CapSlot>, target: string): (r: Option<nat>)
    ensures r.Some? ==> r.value < |caps| && Answers(caps[r.value], target) && target != ""
    ensures r.Some? ==> forall j | 0 <= j < r.value :: !Answers(caps[j], target)
    ensures r.None? ==> target == "" || forall j | 0 <= j < |caps| :: !Answers(caps[j], target)
  {
    if target == "" || caps == [] then None
    else if Answers(caps[0], target) then Some(0)
    else match FindCap(caps[1..], target)
      case None => None
      case Some(i) => assert forall j | 1 <= j < |caps| :: caps[j] == caps[1..][j - 1]; Some(i + 1)
  }

  predicate IsGroup(slot: GroupSlot, groupId: string) {
    slot.occupied && slot.group.groupId == groupId
  }

  function FindGroup(groups: seq<GroupSlot>, groupId: string): (r: Option<nat>)
    ensures r.Some? ==> r.value < |groups| && IsGroup(groups[r.value], groupId) && groupId != ""
    ensures r.Some? ==> forall j | 0 <= j < r.value :: !IsGroup(groups[j], groupId)
    ensures r.None? ==> groupId == "" || forall j | 0 <= j < |groups| :: !IsGroup(groups[j], groupId)
  {
    if groupId == "" || groups == [] then None
    else if IsGroup(groups[0], groupId) then Some(0)
    else match FindGroup(groups[1..], groupId)
      case None => None
      case Some(i) => assert forall j | 1 <= j < |groups| :: groups[j] == groups[1..][j - 1]; Some(i + 1)
  }

  function FindFreeCap(caps: seq<CapSlot>): (r: Option<nat>)
    ensures r.Some? ==> r.value < |caps| && !caps[r.value].occupied
    ensures r.Some? ==> forall j | 0 <= j < r.value :: caps[j].occupied
    ensures r.None? ==> forall j | 0 <= j < |caps| :: caps[j].occupied
  {
    if caps == [] then None
    else if !caps[0].occupied then Some(0)
    else match FindFreeCap(caps[1..])
      case None => None
      case Some(i) => assert forall j | 1 <= j < |caps| :: caps[j] == caps[1..][j - 1]; Some(i + 1)
  }

  function FindFreeGroup(groups: seq<GroupSlot>): (r: Option<nat>)
    ensures r.Some? ==> r.value < |groups| && !groups[r.value].occupied
    ensures r.Some? ==> forall j | 0 <= j < r.value :: groups[j].occupied
    ensures r.None? ==> forall j | 0 <= j < |groups| :: groups[j].occupied
  {
    if groups == [] then None
    else if !groups[0].occupied then Some(0)
    else match FindFreeGroup(groups[1..])
      case None => None
      case Some(i) => assert forall j | 1 <= j < |groups| :: groups[j] == groups[1..][j - 1]; Some(i + 1)
  }

  // ---- Authorisation (lines 591-739) ----

  predicate Available(slot: CapSlot) {
    slot.occupied && (slot.state == Registered || slot.state == Started)
  }

  predicate GroupVisible(rt: Runtime, g: nat, session: string) {
    if rt.visible == [] && Lookup(rt.sessions, session).None? then true
    else if g >= |rt.groups| || !rt.groups[g].occupied || rt.groups[g].group.groupId == "" then false
    else
      var id := rt.groups[g].group.groupId;
      id in rt.visible || (Lookup(rt.sessions, session).Some? && id in Lookup(rt.sessions, session).value)
  }

  datatype Auth = AuthOk | NotAvailable | NotExecutable | NotCallableKind | NotLlmCallable | RootOnly | GroupNotVisible

  function Authorize(rt: Runtime, slot: CapSlot, ctx: Option<Context>): Auth {
    var session := if ctx.Some? then ctx.value.session else "";
    var caller := if ctx.Some? then ctx.value.caller else System;
    if !Available(slot) then NotAvailable
    else if !slot.descriptor.hasExecute then NotExecutable
    else if slot.descriptor.kind != Callable && slot.descriptor.kind != Hybrid then NotCallableKind
    else if !slot.descriptor.callableByLlm then NotLlmCallable
    else if caller == SubAgent && slot.descriptor.rootAgentOnly then RootOnly
    else if !GroupVisible(rt, slot.groupSlot, session) then GroupNotVisible
    else AuthOk
  }

  predicate FromAgent(ctx: Option<Context>) {
    ctx.Some? && (ctx.value.caller == Agent || ctx.value.caller == SubAgent)
  }

  /** The admission test of claw_cap_call on the slot its search found. */
  predicate Admits(rt: Runtime, slot: CapSlot, ctx: Option<Context>) {
    if FromAgent(ctx) then Authorize(rt, slot, ctx).AuthOk?
    else Available(slot) && slot.descriptor.hasExecute
  }

  // ---- Changing every member of a group ----

  ghost predicate InRange(rt: Runtime, g: nat) {
    g < |rt.groups| && forall k | 0 <= k < |rt.groups[g].members| :: rt.groups[g].members[k] < |rt.caps|
  }

  function WithState(rt: Runtime, g: nat, state: LifeState): (after: Runtime)
    requires g < |rt.groups|
    ensures |after.caps| == |rt.caps| && |after.groups| == |rt.groups|
  {
    var members := rt.groups[g].members;
    rt.(groups := rt.groups[g := rt.groups[g].(state := state)],
        caps := seq(|rt.caps|, s requires 0 <= s < |rt.caps| =>
          if s in members then rt.caps[s].(state := state) else rt.caps[s]))
  }

  /** claw_cap_clear_group_slot_locked: the members and the group become all zero. */
  function Cleared(rt: Runtime, g: nat): (after: Runtime)
    requires g < |rt.groups|
    ensures |after.caps| == |rt.caps| && |after.groups| == |rt.groups|
  {
    var members := rt.groups[g].members;
    rt.(groups := rt.groups[g := FREE_GROUP],
        caps := seq(|rt.caps|, s requires 0 <= s < |rt.caps| =>
          if s in members then FREE_CAP else rt.caps[s]))
  }

  predicate Busy(rt: Runtime, g: nat)
    requires g < |rt.groups|
  {
    exists k | 0 <= k < |rt.groups[g].members| ::
      var m := rt.groups[g].members[k];
      m < |rt.caps| && rt.caps[m].activeCalls > 0
  }

  // ---- The slot graph ----

  ghost predicate CapOk(rt: Runtime, s: nat)
    requires s < |rt.caps|
  {
    var slot := rt.caps[s];
    if slot.occupied then
      && slot.descriptor.id != "" && slot.descriptor.name != ""
      && slot.groupSlot < |rt.groups|
      && rt.groups[slot.groupSlot].occupied
      && s in rt.groups[slot.groupSlot].members
    else slot == FREE_CAP
  }

  /** Slot s is the k-th member of group g. */
  ghost predicate MemberOk(rt: Runtime, g: nat, k: nat)
    requires g < |rt.groups| && k < |rt.groups[g].members|
  {
    var group := rt.groups[g];
    var s := group.members[k];
    && k < |group.group.descriptors|
    && s < |rt.caps|
    && rt.caps[s].occupied
    && rt.caps[s].groupSlot == g
    && rt.caps[s].state == group.state
    && rt.caps[s].descriptor == group.group.descriptors[k]
  }

  ghost predicate GroupOk(rt: Runtime, g: nat)
    requires g < |rt.groups|
  {
    var slot := rt.groups[g];
    if slot.occupied then
      && slot.group.groupId != ""
      && |slot.members| == |slot.group.descriptors| > 0
      && Distinct(slot.members)
      && forall k | 0 <= k < |slot.members| :: MemberOk(rt, g, k)
    else slot == FREE_GROUP
  }

  ghost predicate NamesDistinct(rt: Runtime) {
    && (forall i, j | 0 <= i < j < |rt.caps| && rt.caps[i].occupied && rt.caps[j].occupied ::
          rt.caps[i].descriptor.id != rt.caps[j].descriptor.id
          && rt.caps[i].descriptor.name != rt.caps[j].descriptor.name)
    && (forall i, j | 0 <= i < j < |rt.groups| && rt.groups[i].occupied && rt.groups[j].occupied ::
          rt.groups[i].group.groupId != rt.groups[j].group.groupId)
  }

  ghost predicate GraphOk(rt: Runtime) {
    && (forall s | 0 <= s < |rt.caps| :: CapOk(rt, s))
    && (forall g | 0 <= g < |rt.groups| :: GroupOk(rt, g))
    && NamesDistinct(rt)
    && WellFormed(rt.sessions)
  }

  /** Every occupied descriptor slot is listed by exactly one occupied group, exactly once. */
  lemma ListedExactlyOnce(rt: Runtime, s: nat)
    requires GraphOk(rt) && s < |rt.caps| && rt.caps[s].occupied
    ensures exists g, k ::
      && 0 <= g < |rt.groups| && rt.groups[g].occupied
      && 0 <= k < |rt.groups[g].members| && rt.groups[g].members[k] == s
      && g == rt.caps[s].groupSlot
      && forall h, l | 0 <= h < |rt.groups| && rt.groups[h].occupied
                       && 0 <= l < |rt.groups[h].members| && rt.groups[h].members[l] == s ::
           h == g && l == k
  {
    var g := rt.caps[s].groupSlot;
    assert CapOk(rt, s) && GroupOk(rt, g);
    var k :| 0 <= k < |rt.groups[g].members| && rt.groups[g].members[k] == s;
    forall h, l | 0 <= h < |rt.groups| && rt.groups[h].occupied
                  && 0 <= l < |rt.groups[h].members| && rt.groups[h].members[l] == s
      ensures h == g && l == k
    {
      assert GroupOk(rt, h) && MemberOk(rt, h, l);
    }
  }

  lemma FindGroupIs(groups: seq<GroupSlot>, groupId: string, g: nat)
    requires g < |groups| && IsGroup(groups[g], groupId) && groupId != ""
    requires forall i, j | 0 <= i < j < |groups| && groups[i].occupied && groups[j].occupied ::
               groups[i].group.groupId != groups[j].group.groupId
    ensures FindGroup(groups, groupId) == Some(g)
  {
  }

  /** The two directions of the graph agree: a group lists exactly the slots that point back to it. */
  lemma MemberIff(rt: Runtime, g: nat, s: nat)
    requires GraphOk(rt) && g < |rt.groups| && rt.groups[g].occupied && s < |rt.caps|
    ensures s in rt.groups[g].members <==> rt.caps[s].occupied && rt.caps[s].groupSlot == g
  {
    assert CapOk(rt, s) && GroupOk(rt, g);
    if s in rt.groups[g].members {
      var k :| 0 <= k < |rt.groups[g].members| && rt.groups[g].members[k] == s;
      assert MemberOk(rt, g, k);
    }
  }

  lemma WithStateKeepsGraph(rt: Runtime, g: nat, state: LifeState)
    requires GraphOk(rt) && g < |rt.groups| && rt.groups[g].occupied
    ensures GraphOk(WithState(rt, g, state))
  {
    var after := WithState(rt, g, state);
    forall s | 0 <= s < |after.caps| ensures CapOk(after, s) {
      assert CapOk(rt, s);
      MemberIff(rt, g, s);
    }
    forall h | 0 <= h < |after.groups| ensures GroupOk(after, h) {
      assert GroupOk(rt, h);
      if after.groups[h].occupied {
        forall k | 0 <= k < |after.groups[h].members| ensures MemberOk(after, h, k) {
          assert MemberOk(rt, h, k);
          MemberIff(rt, g, rt.groups[h].members[k]);
        }
      }
    }
  }

  lemma ClearedKeepsGraph(rt: Runtime, g: nat)
    requires GraphOk(rt) && g < |rt.groups| && rt.groups[g].occupied
    ensures GraphOk(Cleared(rt, g))
  {
    var after := Cleared(rt, g);
    forall s | 0 <= s < |after.caps| ensures CapOk(after, s) {
      assert CapOk(rt, s);
      MemberIff(rt, g, s);
    }
    forall h | 0 <= h < |after.groups| ensures GroupOk(after, h) {
      assert GroupOk(rt, h);
      if after.groups[h].occupied {
        forall k | 0 <= k < |after.groups[h].members| ensures MemberOk(after, h, k) {
          assert MemberOk(rt, h, k);
          MemberIff(rt, g, rt.groups[h].members[k]);
        }
      }
    }
  }

  /** Replacing one occupied slot by one with the same identity, group and state keeps the graph. */
  lemma TouchKeepsGraph(rt: Runtime, s: nat, slot: CapSlot)
    requires GraphOk(rt) && s < |rt.caps| && rt.caps[s].occupied
    requires slot == rt.caps[s].(initCalled := slot.initCalled, activeCalls := slot.activeCalls)
    ensures GraphOk(rt.(caps := rt.caps[s := slot]))
  {
    var after := rt.(caps := rt.caps[s := slot]);
    forall t | 0 <= t < |after.caps| ensures CapOk(after, t) {
      assert CapOk(rt, t);
    }
    forall h | 0 <= h < |after.groups| ensures GroupOk(after, h) {
      assert GroupOk(rt, h);
      if after.groups[h].occupied {
        forall k | 0 <= k < |after.groups[h].members| ensures MemberOk(after, h, k) {
          assert MemberOk(rt, h, k);
        }
      }
    }
  }
}
