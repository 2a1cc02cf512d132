/**
 Registering a group: validation, growth of the two slot tables, and the loop that hands out
 descriptor slots (components/claw_cap/src/claw_cap.c, lines 720-1028 and 1192-1257).
 */
module CapRegister {
  import opened Common
  import opened CapTypes

  const TABLE_FLOOR := 4  // both default capacities

  // ---- Validation ----

  function ValidateDescriptor(d: Descriptor): Err {
    if d.id == "" || d.name == "" then InvalidArg
    else if (d.kind == Callable || d.kind == Hybrid) && d.callableByLlm && !d.hasExecute then InvalidArg
    else Err.Ok
  }

  predicate Clash(a: Descriptor, b: Descriptor) {
    a.id == b.id || a.name == b.name
  }

  predicate NamesConflict(caps: seq<CapSlot>, d: Descriptor) {
    exists s | 0 <= s < |caps| :: caps[s].occupied && Clash(caps[s].descriptor, d)
  }

  /** The verdict of the validation loop from its i-th descriptor on: the first fault decides. */
  function ValidateFrom(caps: seq<CapSlot>, ds: seq<Descriptor>, i: nat): Err
    requires i <= |ds|
    decreases |ds| - i
  {
    if i == |ds| then Err.Ok
    else if ValidateDescriptor(ds[i]) != Err.Ok then InvalidArg
    else if NamesConflict(caps, ds[i]) then InvalidState
    else if exists j | i < j < |ds| :: Clash(ds[i], ds[j]) then InvalidState
    else ValidateFrom(caps, ds, i + 1)
  }

  function ValidateGroup(rt: Runtime, group: Group): Err {
    if group.groupId == "" || group.descriptors == [] then InvalidArg
    else if FindGroup(rt.groups, group.groupId).Some? then InvalidState
    else ValidateFrom(rt.caps, group.descriptors, 0)
  }

  ghost predicate Acceptable(caps: seq<CapSlot>, ds: seq<Descriptor>, i: nat)
    requires i <= |ds|
  {
    && (forall k | i <= k < |ds| :: ValidateDescriptor(ds[k]) == Err.Ok && !NamesConflict(caps, ds[k]))
    && (forall k, l | i <= k < l < |ds| :: !Clash(ds[k], ds[l]))
  }

  /** The loop accepts exactly the descriptor lists with no fault anywhere. */
  lemma {:induction false} ValidateFromIff(caps: seq<CapSlot>, ds: seq<Descriptor>, i: nat)
    requires i <= |ds|
    ensures ValidateFrom(caps, ds, i) == Err.Ok <==> Acceptable(caps, ds, i)
    decreases |ds| - i
  {
    if i < |ds| {
      ValidateFromIff(caps, ds, i + 1);
    }
  }

  // ---- Capacity ----

  function CountIf<T>(s: seq<T>, p: T -> bool): nat {
    if s == [] then 0
    else CountIf(s[..|s| - 1], p) + if p(s[|s| - 1]) then 1 else 0
  }

  predicate CapUsed(c: CapSlot) { c.occupied }
  predicate CapFree(c: CapSlot) { !c.occupied }
  predicate GroupUsed(g: GroupSlot) { g.occupied }

  lemma {:induction false} UsedAndFree(caps: seq<CapSlot>)
    ensures CountIf(caps, CapUsed) + CountIf(caps, CapFree) == |caps|
  {
    if caps != [] {
      UsedAndFree(caps[..|caps| - 1]);
    }
  }

  lemma {:induction false} CountAtMost<T>(s: seq<T>, p: T -> bool)
    ensures CountIf(s, p) <= |s|
    ensures CountIf(s, p) == |s| ==> forall i | 0 <= i < |s| :: p(s[i])
    ensures CountIf(s, p) == 0 ==> forall i | 0 <= i < |s| :: !p(s[i])
  {
    if s != [] {
      CountAtMost(s[..|s| - 1], p);
    }
  }

  /** Changing one element moves the count by what that element changed. */
  lemma {:induction false} CountUpdate<T>(s: seq<T>, p: T -> bool, i: nat, x: T)
    requires i < |s|
    ensures CountIf(s[i := x], p) + (if p(s[i]) then 1 else 0) == CountIf(s, p) + if p(x) then 1 else 0
  {
    var t := s[i := x];
    if i == |s| - 1 {
      assert t[..|s| - 1] == s[..|s| - 1];
    } else {
      assert t[..|s| - 1] == s[..|s| - 1][i := x];
      CountUpdate(s[..|s| - 1], p, i, x);
    }
  }

  lemma {:induction false} CountPadded<T>(s: seq<T>, p: T -> bool, zero: T, n: nat)
    requires !p(zero)
    ensures CountIf(s + seq(n, i => zero), p) == CountIf(s, p)
  {
    var t := s + seq(n, i => zero);
    if n == 0 {
      assert t == s;
    } else {
      CountPadded(s, p, zero, n - 1);
      assert t[..|t| - 1] == s + seq(n - 1, i => zero);
    }
  }

  function GrownCapacity(capacity: nat, required: nat): nat {
    var start := if capacity > 0 then capacity else TABLE_FLOOR;
    if start < required then required + Max(required / 4, TABLE_FLOOR) else start
  }

  /**
   A slot table with room for extra more entries, or None when it has to grow and cannot.
   free is the code's own count of free slots, used its count of occupied ones.
   */
  function Ensured<T>(slots: seq<T>, used: nat, free: nat, extra: nat, zero: T, canGrow: bool): Option<seq<T>> {
    if extra == 0 || free >= extra then Some(slots)
    else if !canGrow then None
    else
      var capacity := GrownCapacity(|slots|, used + extra);
      if capacity <= |slots| then Some(slots) else Some(slots + seq(capacity - |slots|, i => zero))
  }

  function EnsuredCaps(caps: seq<CapSlot>, extra: nat, canGrow: bool): Option<seq<CapSlot>> {
    Ensured(caps, CountIf(caps, CapUsed), CountIf(caps, CapFree), extra, FREE_CAP, canGrow)
  }

  function EnsuredGroups(groups: seq<GroupSlot>, extra: nat, canGrow: bool): Option<seq<GroupSlot>> {
    CountAtMost(groups, GroupUsed);
    Ensured(groups, CountIf(groups, GroupUsed), |groups| - CountIf(groups, GroupUsed), extra, FREE_GROUP, canGrow)
  }

  /** Growth keeps every slot at its index, adds only zeroed slots, and yields the room asked for. */
  lemma EnsuredSuffices<T>(slots: seq<T>, p: T -> bool, extra: nat, zero: T, canGrow: bool)
    requires !p(zero) && CountIf(slots, p) <= |slots|
    ensures var r := Ensured(slots, CountIf(slots, p), |slots| - CountIf(slots, p), extra, zero, canGrow);
      r.Some? ==>
        && slots <= r.value
        && (forall i | |slots| <= i < |r.value| :: r.value[i] == zero)
        && CountIf(r.value, p) == CountIf(slots, p)
        && |r.value| - CountIf(r.value, p) >= extra
  {
    var used := CountIf(slots, p);
    var r := Ensured(slots, used, |slots| - used, extra, zero, canGrow);
    if r.Some? && r.value != slots {
      CountPadded(slots, p, zero, GrownCapacity(|slots|, used + extra) - |slots|);
    }
  }

  // ---- Handing out descriptor slots ----

  datatype Filled = Filled(ok: bool, caps: seq<CapSlot>, members: seq<nat>)

  function Enlist(slot: CapSlot, d: Descriptor, g: nat): CapSlot {
    slot.(occupied := true, descriptor := d, groupSlot := g, state := Registered)
  }

  /** The registration loop from its i-th descriptor on; it stops at the first missing slot. */
  function Fill(caps: seq<CapSlot>, g: nat, ds: seq<Descriptor>, members: seq<nat>, i: nat): (r: Filled)
    requires i <= |ds| == |members|
    ensures |r.caps| == |caps| && |r.members| == |members|
    decreases |ds| - i
  {
    if i == |ds| then Filled(true, caps, members)
    else match FindFreeCap(caps)
      case None => Filled(false, caps, members)
      case Some(s) => Fill(caps[s := Enlist(caps[s], ds[i], g)], g, ds, members[i := s], i + 1)
  }

  /** With enough free slots the loop never runs out, and it enlists distinct, formerly free slots in order. */
  lemma {:induction false} FillSucceeds(caps: seq<CapSlot>, g: nat, ds: seq<Descriptor>, members: seq<nat>, i: nat)
    requires i <= |ds| == |members|
    requires CountIf(caps, CapFree) >= |ds| - i
    ensures Fill(caps, g, ds, members, i).ok
    decreases |ds| - i
  {
    if i < |ds| {
      match FindFreeCap(caps)
      case None =>
        CountAtMost(caps, CapFree);
        NoneFree(caps);
      case Some(s) =>
        var next := Enlist(caps[s], ds[i], g);
        CountUpdate(caps, CapFree, s, next);
        FillSucceeds(caps[s := next], g, ds, members[i := s], i + 1);
    }
  }

  lemma {:induction false} NoneFree(caps: seq<CapSlot>)
    requires forall j | 0 <= j < |caps| :: caps[j].occupied
    ensures CountIf(caps, CapFree) == 0
  {
    if caps != [] {
      NoneFree(caps[..|caps| - 1]);
    }
  }

  ghost predicate Enlisted(before: seq<CapSlot>, after: seq<CapSlot>, g: nat, ds: seq<Descriptor>,
                           members: seq<nat>, from: nat)
    requires |before| == |after| && from <= |ds| == |members|
  {
    && (forall k | from <= k < |ds| ::
          && members[k] < |before| && !before[members[k]].occupied
          && after[members[k]] == Enlist(before[members[k]], ds[k], g))
    && (forall k, l | from <= k < l < |ds| :: members[k] != members[l])
    && (forall s | 0 <= s < |before| && before[s].occupied :: after[s] == before[s])
    && (forall s | 0 <= s < |before| && s !in members[from..] :: after[s] == before[s])
  }

  lemma EnlistFirst(caps: seq<CapSlot>, after: seq<CapSlot>, g: nat, ds: seq<Descriptor>,
                    members: seq<nat>, i: nat, s: nat)
    requires |caps| == |after| && i < |ds| == |members| && s < |caps| && !caps[s].occupied && members[i] == s
    requires Enlisted(caps[s := Enlist(caps[s], ds[i], g)], after, g, ds, members, i + 1)
    ensures Enlisted(caps, after, g, ds, members, i)
  {
    var caps1 := caps[s := Enlist(caps[s], ds[i], g)];
    assert caps1[s].occupied && after[s] == caps1[s];
    forall k | i + 1 <= k < |ds| ensures members[k] != s && caps1[members[k]] == caps[members[k]] {
      assert !caps1[members[k]].occupied;
    }
    assert members[i..] == [s] + members[i + 1..];
  }

  lemma {:induction false} FillEnlists(caps: seq<CapSlot>, g: nat, ds: seq<Descriptor>, members: seq<nat>, i: nat)
    requires i <= |ds| == |members|
    requires Fill(caps, g, ds, members, i).ok
    ensures var r := Fill(caps, g, ds, members, i);
      r.members[..i] == members[..i] && Enlisted(caps, r.caps, g, ds, r.members, i)
    decreases |ds| - i
  {
    hide Enlist;
    if i < |ds| {
      var s := FindFreeCap(caps).value;
      var caps1 := caps[s := Enlist(caps[s], ds[i], g)];
      var members1 := members[i := s];
      FillEnlists(caps1, g, ds, members1, i + 1);
      var r := Fill(caps1, g, ds, members1, i + 1);
      assert r.members[i] == r.members[..i + 1][i] == s;
      assert r.members[..i] == r.members[..i + 1][..i] == members[..i];
      EnlistFirst(caps, r.caps, g, ds, r.members, i, s);
    }
  }

  // ---- The locked region of registration ----

  /** Which allocations succeed: growing the group table, growing the descriptor table, the member list. */
  datatype Allocation = Allocation(groupTable: bool, capTable: bool, memberList: bool)

  datatype Registration = Registration(err: Err, rt: Runtime, slot: nat)

  /** Registration into tables that have already been grown. */
  function RegisterInto(rt: Runtime, group: Group, initOk: bool, memberList: bool): Registration {
    match FindFreeGroup(rt.groups)
    case None => Registration(NoMem, rt, 0)
    case Some(g) =>
      if !memberList then Registration(NoMem, rt, g)
      else if group.hasInit && !initOk then
        Registration(Fail, rt.(groups := rt.groups[g := FREE_GROUP]), g)
      else
        var n := |group.descriptors|;
        var filled := Fill(rt.caps, g, group.descriptors, seq(n, i => 0), 0);
        var slot := GroupSlot(true, group, Registered, filled.members,
                              rt.groups[g].groupInitCalled || group.hasInit);
        var after := rt.(caps := filled.caps, groups := rt.groups[g := slot]);
        if filled.ok then Registration(Err.Ok, after, g)
        else Registration(NoMem, Cleared(after, g), g)
  }

  function RegisterLocked(rt: Runtime, group: Group, initOk: bool, alloc: Allocation): Registration {
    match EnsuredGroups(rt.groups, 1, alloc.groupTable)
    case None => Registration(NoMem, rt, 0)
    case Some(groups) =>
      match EnsuredCaps(rt.caps, |group.descriptors|, alloc.capTable)
      case None => Registration(NoMem, rt.(groups := groups), 0)
      case Some(caps) => RegisterInto(rt.(groups := groups, caps := caps), group, initOk, alloc.memberList)
  }

  function RegisterGroup(rt: Runtime, group: Group, initOk: bool, alloc: Allocation): Registration {
    var err := ValidateGroup(rt, group);
    if err != Err.Ok then Registration(err, rt, 0) else RegisterLocked(rt, group, initOk, alloc)
  }

  /** Growing both tables leaves the graph intact. */
  lemma GrowKeepsGraph(rt: Runtime, groups: seq<GroupSlot>, caps: seq<CapSlot>)
    requires GraphOk(rt) && rt.groups <= groups && rt.caps <= caps
    requires forall i | |rt.groups| <= i < |groups| :: groups[i] == FREE_GROUP
    requires forall i | |rt.caps| <= i < |caps| :: caps[i] == FREE_CAP
    ensures GraphOk(rt.(groups := groups, caps := caps))
  {
    var after := rt.(groups := groups, caps := caps);
    forall s | 0 <= s < |caps| ensures CapOk(after, s) {
      if s < |rt.caps| { assert CapOk(rt, s); }
    }
    forall g | 0 <= g < |groups| ensures GroupOk(after, g) {
      if g < |rt.groups| {
        assert GroupOk(rt, g);
        if rt.groups[g].occupied {
          forall k | 0 <= k < |groups[g].members| ensures MemberOk(after, g, k) {
            assert MemberOk(rt, g, k);
          }
        }
      }
    }
  }

  lemma EnsuredCapsSuffice(caps: seq<CapSlot>, extra: nat, canGrow: bool)
    ensures var r := EnsuredCaps(caps, extra, canGrow);
      r.Some? ==>
        && caps <= r.value
        && (forall i | |caps| <= i < |r.value| :: r.value[i] == FREE_CAP)
        && CountIf(r.value, CapFree) >= extra
  {
    UsedAndFree(caps);
    EnsuredSuffices(caps, CapUsed, extra, FREE_CAP, canGrow);
    var r := EnsuredCaps(caps, extra, canGrow);
    if r.Some? {
      UsedAndFree(r.value);
    }
  }

  lemma EnsuredGroupsSuffice(groups: seq<GroupSlot>, canGrow: bool)
    ensures var r := EnsuredGroups(groups, 1, canGrow);
      r.Some? ==>
        && groups <= r.value
        && (forall i | |groups| <= i < |r.value| :: r.value[i] == FREE_GROUP)
        && FindFreeGroup(r.value).Some?
  {
    CountAtMost(groups, GroupUsed);
    EnsuredSuffices(groups, GroupUsed, 1, FREE_GROUP, canGrow);
    var r := EnsuredGroups(groups, 1, canGrow);
    if r.Some? && FindFreeGroup(r.value).None? {
      AllUsed(r.value);
    }
  }

  lemma {:induction false} AllUsed(groups: seq<GroupSlot>)
    requires forall j | 0 <= j < |groups| :: groups[j].occupied
    ensures CountIf(groups, GroupUsed) == |groups|
  {
    if groups != [] {
      AllUsed(groups[..|groups| - 1]);
    }
  }

  /**
   Once the two capacity calls and the member allocation succeed, registration fails only through
   the group's own init callback: neither out-of-slots branch can be taken.
   */
  lemma CapacitySuffices(rt: Runtime, group: Group, initOk: bool)
    ensures RegisterLocked(rt, group, initOk, Allocation(true, true, true)).err
         == if group.hasInit && !initOk then Fail else Err.Ok
  {
    var n := |group.descriptors|;
    EnsuredGroupsSuffice(rt.groups, true);
    EnsuredCapsSuffice(rt.caps, n, true);
    var groups := EnsuredGroups(rt.groups, 1, true).value;
    var caps := EnsuredCaps(rt.caps, n, true).value;
    var g := FindFreeGroup(groups).value;
    FillSucceeds(caps, g, group.descriptors, seq(n, i => 0), 0);
  }

  /** What registration does to the tables, whichever way it ends. */
  ghost predicate RegistrationEffect(rt: Runtime, group: Group, r: Registration) {
    var after := r.rt;
    && |rt.caps| <= |after.caps| && |rt.groups| <= |after.groups|
    && after.started == rt.started && after.visible == rt.visible && after.sessions == rt.sessions
    && (forall s | 0 <= s < |rt.caps| && rt.caps[s].occupied :: after.caps[s] == rt.caps[s])
    && (forall g | 0 <= g < |rt.groups| && rt.groups[g].occupied :: after.groups[g] == rt.groups[g])
    && if r.err == Err.Ok then
         && r.slot < |after.groups|
         && (r.slot < |rt.groups| ==> !rt.groups[r.slot].occupied)
         && after.groups[r.slot].occupied && after.groups[r.slot].group == group
         && after.groups[r.slot].state == Registered
         && (forall g | 0 <= g < |after.groups| && g != r.slot && after.groups[g].occupied ::
               g < |rt.groups| && rt.groups[g] == after.groups[g])
         && (forall s | 0 <= s < |after.caps| && after.caps[s].occupied
                        && s !in after.groups[r.slot].members ::
               s < |rt.caps| && rt.caps[s] == after.caps[s])
         && (forall m | m in after.groups[r.slot].members ::
               && m < |after.caps| && (m < |rt.caps| ==> !rt.caps[m].occupied)
               && !after.caps[m].initCalled && after.caps[m].activeCalls == 0)
       else
         && (forall g | 0 <= g < |after.groups| && after.groups[g].occupied ::
               g < |rt.groups| && rt.groups[g] == after.groups[g])
         && (forall s | 0 <= s < |after.caps| && after.caps[s].occupied ::
               s < |rt.caps| && rt.caps[s] == after.caps[s])
  }

  /** The table after a successful fill: group g was free and now lists the enlisted slots. */
  lemma FilledGraph(rt: Runtime, g: nat, group: Group, filled: Filled)
    requires GraphOk(rt) && g < |rt.groups| && !rt.groups[g].occupied
    requires group.groupId != "" && group.descriptors != []
    requires Acceptable(rt.caps, group.descriptors, 0)
    requires FindGroup(rt.groups, group.groupId).None?
    requires |filled.caps| == |rt.caps| && |filled.members| == |group.descriptors|
    requires Enlisted(rt.caps, filled.caps, g, group.descriptors, filled.members, 0)
    ensures GraphOk(rt.(caps := filled.caps,
                        groups := rt.groups[g := GroupSlot(true, group, Registered, filled.members, group.hasInit)]))
  {
    hide Enlist, Enlisted, CapOk, GroupOk, Acceptable;
    var ds := group.descriptors;
    var slot := GroupSlot(true, group, Registered, filled.members, group.hasInit);
    var after := rt.(caps := filled.caps, groups := rt.groups[g := slot]);
    forall s | 0 <= s < |after.caps|
      ensures CapOk(after, s)
      ensures s !in filled.members ==> after.caps[s] == rt.caps[s]
      ensures s in filled.members ==>
                exists k | 0 <= k < |ds| :: filled.members[k] == s && after.caps[s].descriptor == ds[k]
    {
      FilledCap(rt, g, group, filled, s);
    }
    forall h | 0 <= h < |after.groups| ensures GroupOk(after, h) {
      FilledGroup(rt, g, group, filled, h);
    }
    FilledNames(rt, after, ds, filled.members);
  }

  lemma FilledCap(rt: Runtime, g: nat, group: Group, filled: Filled, s: nat)
    requires GraphOk(rt) && g < |rt.groups| && !rt.groups[g].occupied && s < |rt.caps|
    requires Acceptable(rt.caps, group.descriptors, 0)
    requires |filled.caps| == |rt.caps| && |filled.members| == |group.descriptors|
    requires Enlisted(rt.caps, filled.caps, g, group.descriptors, filled.members, 0)
    ensures CapOk(rt.(caps := filled.caps,
                      groups := rt.groups[g := GroupSlot(true, group, Registered, filled.members, group.hasInit)]), s)
    ensures s !in filled.members ==> filled.caps[s] == rt.caps[s]
    ensures s in filled.members ==>
              exists k | 0 <= k < |group.descriptors| ::
                filled.members[k] == s && filled.caps[s].descriptor == group.descriptors[k]
  {
    hide NamesDistinct, GroupOk;
    assert filled.members[0..] == filled.members;
    assert CapOk(rt, s);
    if s in filled.members {
      var k :| 0 <= k < |group.descriptors| && filled.members[k] == s;
      assert filled.caps[s] == Enlist(rt.caps[s], group.descriptors[k], g);
      assert ValidateDescriptor(group.descriptors[k]) == Err.Ok;
    }
  }

  lemma FilledGroup(rt: Runtime, g: nat, group: Group, filled: Filled, h: nat)
    requires GraphOk(rt) && g < |rt.groups| && !rt.groups[g].occupied && h < |rt.groups|
    requires group.groupId != "" && group.descriptors != []
    requires |filled.caps| == |rt.caps| && |filled.members| == |group.descriptors|
    requires Enlisted(rt.caps, filled.caps, g, group.descriptors, filled.members, 0)
    ensures GroupOk(rt.(caps := filled.caps,
                        groups := rt.groups[g := GroupSlot(true, group, Registered, filled.members, group.hasInit)]), h)
  {
    hide NamesDistinct, CapOk;
    var after := rt.(caps := filled.caps,
                     groups := rt.groups[g := GroupSlot(true, group, Registered, filled.members, group.hasInit)]);
    if h == g {
      forall k | 0 <= k < |group.descriptors| ensures MemberOk(after, g, k) {
        assert !rt.caps[filled.members[k]].occupied;
      }
    } else {
      assert GroupOk(rt, h);
      if rt.groups[h].occupied {
        forall k | 0 <= k < |rt.groups[h].members| ensures MemberOk(after, h, k) {
          assert MemberOk(rt, h, k);
        }
      }
    }
  }

  lemma FilledNames(rt: Runtime, after: Runtime, ds: seq<Descriptor>, members: seq<nat>)
    requires NamesDistinct(rt) && Acceptable(rt.caps, ds, 0)
    requires |after.caps| == |rt.caps| && |members| == |ds|
    requires forall s | 0 <= s < |after.caps| && s !in members :: after.caps[s] == rt.caps[s]
    requires forall s | 0 <= s < |after.caps| && s in members ::
               exists k | 0 <= k < |ds| :: members[k] == s && after.caps[s].descriptor == ds[k]
    ensures forall i, j | 0 <= i < j < |after.caps| && after.caps[i].occupied && after.caps[j].occupied ::
              !Clash(after.caps[i].descriptor, after.caps[j].descriptor)
  {
    forall i, j | 0 <= i < j < |after.caps| && after.caps[i].occupied && after.caps[j].occupied
      ensures !Clash(after.caps[i].descriptor, after.caps[j].descriptor)
    {
      if i in members && j in members {
        var k :| 0 <= k < |ds| && members[k] == i && after.caps[i].descriptor == ds[k];
        var l :| 0 <= l < |ds| && members[l] == j && after.caps[j].descriptor == ds[l];
        assert k != l;
        assert k < l || l < k;
      } else if i in members {
        var k :| 0 <= k < |ds| && members[k] == i && after.caps[i].descriptor == ds[k];
        assert !NamesConflict(rt.caps, ds[k]);
      } else if j in members {
        var l :| 0 <= l < |ds| && members[l] == j && after.caps[j].descriptor == ds[l];
        assert !NamesConflict(rt.caps, ds[l]);
      }
    }
  }

  /** Registration that stops after growing the tables has registered nothing. */
  lemma GrownEffect(rt: Runtime, group: Group, groups: seq<GroupSlot>, caps: seq<CapSlot>, err: Err, slot: nat)
    requires rt.groups <= groups && rt.caps <= caps && err != Err.Ok
    requires forall i | |rt.groups| <= i < |groups| :: groups[i] == FREE_GROUP
    requires forall i | |rt.caps| <= i < |caps| :: caps[i] == FREE_CAP
    ensures RegistrationEffect(rt, group, Registration(err, rt.(groups := groups, caps := caps), slot))
  {
  }

  /** Registration into a free group slot of already grown tables. */
  lemma FilledEffect(rt: Runtime, group: Group, groups: seq<GroupSlot>, caps: seq<CapSlot>, g: nat, filled: Filled)
    requires rt.groups <= groups && rt.caps <= caps
    requires forall i | |rt.groups| <= i < |groups| :: groups[i] == FREE_GROUP
    requires forall i | |rt.caps| <= i < |caps| :: caps[i] == FREE_CAP
    requires forall i | 0 <= i < |caps| && !caps[i].occupied :: caps[i] == FREE_CAP
    requires g < |groups| && !groups[g].occupied
    requires |filled.caps| == |caps| && |filled.members| == |group.descriptors|
    requires Enlisted(caps, filled.caps, g, group.descriptors, filled.members, 0)
    ensures RegistrationEffect(rt, group,
              Registration(Err.Ok, rt.(caps := filled.caps,
                                       groups := groups[g := GroupSlot(true, group, Registered, filled.members, group.hasInit)]), g))
  {
    assert filled.members[0..] == filled.members;
    forall m | m in filled.members
      ensures m < |caps| && (m < |rt.caps| ==> !rt.caps[m].occupied)
      ensures !filled.caps[m].initCalled && filled.caps[m].activeCalls == 0
    {
      var k :| 0 <= k < |group.descriptors| && filled.members[k] == m;
      assert filled.caps[m] == Enlist(caps[m], group.descriptors[k], g);
    }
    forall s | 0 <= s < |caps| && filled.caps[s].occupied && s !in filled.members
      ensures s < |rt.caps| && rt.caps[s] == filled.caps[s]
    {
      assert filled.caps[s] == caps[s];
    }
  }

  /** Registration keeps the graph and touches nothing that was registered before. */
  lemma RegisterKeepsGraph(rt: Runtime, group: Group, initOk: bool, alloc: Allocation)
    requires GraphOk(rt)
    ensures GraphOk(RegisterGroup(rt, group, initOk, alloc).rt)
    ensures RegistrationEffect(rt, group, RegisterGroup(rt, group, initOk, alloc))
  {
    if ValidateGroup(rt, group) == Err.Ok {
      var ds := group.descriptors;
      EnsuredGroupsSuffice(rt.groups, alloc.groupTable);
      EnsuredCapsSuffice(rt.caps, |ds|, alloc.capTable);
      match EnsuredGroups(rt.groups, 1, alloc.groupTable)
      case None =>
      case Some(groups) =>
        match EnsuredCaps(rt.caps, |ds|, alloc.capTable)
        case None =>
          GrowKeepsGraph(rt, groups, rt.caps);
          GrownEffect(rt, group, groups, rt.caps, NoMem, 0);
        case Some(caps) =>
          GrowKeepsGraph(rt, groups, caps);
          GrownKeepsAcceptable(rt, group, caps);
          RegisterGrown(rt, group, initOk, alloc, groups, caps);
    }
  }

  lemma GrownKeepsAcceptable(rt: Runtime, group: Group, caps: seq<CapSlot>)
    requires ValidateGroup(rt, group) == Err.Ok && rt.caps <= caps
    requires forall i | |rt.caps| <= i < |caps| :: caps[i] == FREE_CAP
    ensures Acceptable(caps, group.descriptors, 0)
  {
    ValidateFromIff(rt.caps, group.descriptors, 0);
    forall k | 0 <= k < |group.descriptors| ensures !NamesConflict(caps, group.descriptors[k]) {
      assert !NamesConflict(rt.caps, group.descriptors[k]);
    }
  }

  lemma RegisterGrown(rt: Runtime, group: Group, initOk: bool, alloc: Allocation,
                      groups: seq<GroupSlot>, caps: seq<CapSlot>)
    requires GraphOk(rt) && ValidateGroup(rt, group) == Err.Ok
    requires EnsuredGroups(rt.groups, 1, alloc.groupTable) == Some(groups)
    requires EnsuredCaps(rt.caps, |group.descriptors|, alloc.capTable) == Some(caps)
    requires GraphOk(rt.(groups := groups, caps := caps)) && Acceptable(caps, group.descriptors, 0)
    requires rt.groups <= groups && FindFreeGroup(groups).Some?
    requires forall i | |rt.groups| <= i < |groups| :: groups[i] == FREE_GROUP
    requires rt.caps <= caps && CountIf(caps, CapFree) >= |group.descriptors|
    requires forall i | |rt.caps| <= i < |caps| :: caps[i] == FREE_CAP
    ensures GraphOk(RegisterLocked(rt, group, initOk, alloc).rt)
    ensures RegistrationEffect(rt, group, RegisterLocked(rt, group, initOk, alloc))
  {
    hide Fill, Acceptable, CountIf, NamesDistinct, Cleared, Enlisted, EnsuredGroups, EnsuredCaps;
    var rt2 := rt.(groups := groups, caps := caps);
    var g := FindFreeGroup(groups).value;
    assert GroupOk(rt2, g);
    if !alloc.memberList || (group.hasInit && !initOk) {
      assert groups[g := FREE_GROUP] == groups;
      GrownEffect(rt, group, groups, caps, RegisterLocked(rt, group, initOk, alloc).err, g);
    } else {
      var zeros := seq(|group.descriptors|, i => 0);
      FillSucceeds(caps, g, group.descriptors, zeros, 0);
      FillEnlists(caps, g, group.descriptors, zeros, 0);
      forall i | 0 <= i < |caps| && !caps[i].occupied ensures caps[i] == FREE_CAP {
        assert CapOk(rt2, i);
      }
      var filled := Fill(caps, g, group.descriptors, zeros, 0);
      FilledEffect(rt, group, groups, caps, g, filled);
      FilledGraph(rt2, g, group, filled);
    }
  }
}
