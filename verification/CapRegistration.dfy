/**
 What registration accepts and what it leaves behind, in terms of the descriptors
 (components/claw_cap/src/claw_cap.c, lines 720-748, 781-812, 971-1005 and 1192-1257).
 Main results: RegisterIff, FirstFaultDecides, RegisteredAs.
 */
module CapRegistration {
  import opened Common
  import opened CapTypes
  import opened CapRegister

  /** Something is wrong with the descriptor itself: no id or no name, or offered to the model with nothing to execute. */
  ghost predicate Malformed(d: Descriptor) {
    || d.id == "" || d.name == ""
    || ((d.kind == Callable || d.kind == Hybrid) && d.callableByLlm && !d.hasExecute)
  }

  /** Its id or its name is taken, by a registered descriptor or by a later one of the list. */
  ghost predicate Taken(caps: seq<CapSlot>, ds: seq<Descriptor>, k: nat)
    requires k < |ds|
  {
    || (exists s | 0 <= s < |caps| ::
          caps[s].occupied && (caps[s].descriptor.id == ds[k].id || caps[s].descriptor.name == ds[k].name))
    || (exists l | k < l < |ds| :: ds[l].id == ds[k].id || ds[l].name == ds[k].name)
  }

  ghost predicate NoFault(caps: seq<CapSlot>, ds: seq<Descriptor>) {
    forall k | 0 <= k < |ds| :: !Malformed(ds[k]) && !Taken(caps, ds, k)
  }

  ghost predicate IdInUse(groups: seq<GroupSlot>, groupId: string) {
    exists g | 0 <= g < |groups| :: groups[g].occupied && groups[g].group.groupId == groupId
  }

  lemma FaultsAre(caps: seq<CapSlot>, ds: seq<Descriptor>, k: nat)
    requires k < |ds|
    ensures ValidateDescriptor(ds[k]) == (if Malformed(ds[k]) then InvalidArg else Err.Ok)
    ensures NamesConflict(caps, ds[k]) || (exists l | k < l < |ds| :: Clash(ds[k], ds[l])) <==> Taken(caps, ds, k)
  {
    if s :| 0 <= s < |caps| && caps[s].occupied
            && (caps[s].descriptor.id == ds[k].id || caps[s].descriptor.name == ds[k].name) {
      assert Clash(caps[s].descriptor, ds[k]);
    }
    if l :| k < l < |ds| && (ds[l].id == ds[k].id || ds[l].name == ds[k].name) {
      assert Clash(ds[k], ds[l]);
    }
  }

  lemma {:induction false} ValidateIs(caps: seq<CapSlot>, ds: seq<Descriptor>, i: nat, k: nat)
    requires i <= k <= |ds| && forall j | i <= j < k :: !Malformed(ds[j]) && !Taken(caps, ds, j)
    ensures k == |ds| ==> ValidateFrom(caps, ds, i) == Err.Ok
    ensures k < |ds| && Malformed(ds[k]) ==> ValidateFrom(caps, ds, i) == InvalidArg
    ensures k < |ds| && !Malformed(ds[k]) && Taken(caps, ds, k) ==> ValidateFrom(caps, ds, i) == InvalidState
    decreases |ds| - i
  {
    hide Malformed, Taken, ValidateDescriptor, NamesConflict, Clash;
    if i < |ds| {
      FaultsAre(caps, ds, i);
      if i < k {
        ValidateIs(caps, ds, i + 1, k);
      }
    }
  }

  /** The first fault decides the error: an incomplete group or descriptor, or an id or name that is taken. */
  lemma FirstFaultDecides(rt: Runtime, group: Group, k: nat)
    ensures group.groupId == "" || group.descriptors == [] ==> ValidateGroup(rt, group) == InvalidArg
    ensures group.groupId != "" && group.descriptors != [] && IdInUse(rt.groups, group.groupId) ==>
              ValidateGroup(rt, group) == InvalidState
    ensures group.groupId != "" && !IdInUse(rt.groups, group.groupId) && k < |group.descriptors|
            && (forall j | 0 <= j < k :: !Malformed(group.descriptors[j]) && !Taken(rt.caps, group.descriptors, j)) ==>
              && (Malformed(group.descriptors[k]) ==> ValidateGroup(rt, group) == InvalidArg)
              && (!Malformed(group.descriptors[k]) && Taken(rt.caps, group.descriptors, k) ==>
                    ValidateGroup(rt, group) == InvalidState)
  {
    hide Malformed, Taken;
    if group.groupId != "" {
      IdIs(rt.groups, group.groupId);
    }
    if k < |group.descriptors|
       && forall j | 0 <= j < k :: !Malformed(group.descriptors[j]) && !Taken(rt.caps, group.descriptors, j) {
      ValidateIs(rt.caps, group.descriptors, 0, k);
    }
  }

  lemma IdIs(groups: seq<GroupSlot>, groupId: string)
    requires groupId != ""
    ensures FindGroup(groups, groupId).Some? <==> IdInUse(groups, groupId)
  {
    if FindGroup(groups, groupId).Some? {
      assert IsGroup(groups[FindGroup(groups, groupId).value], groupId);
    } else if g :| 0 <= g < |groups| && groups[g].occupied && groups[g].group.groupId == groupId {
      assert !IsGroup(groups[g], groupId);
    }
  }

  lemma ValidIff(rt: Runtime, group: Group)
    ensures ValidateGroup(rt, group) == Err.Ok <==>
              && group.groupId != "" && group.descriptors != [] && !IdInUse(rt.groups, group.groupId)
              && NoFault(rt.caps, group.descriptors)
  {
    hide Malformed, Taken, ValidateFrom;
    if group.groupId != "" {
      IdIs(rt.groups, group.groupId);
    }
    var ds := group.descriptors;
    if NoFault(rt.caps, ds) {
      ValidateIs(rt.caps, ds, 0, |ds|);
    } else {
      var k: nat := FirstFault(rt.caps, ds, 0);
      ValidateIs(rt.caps, ds, 0, k);
    }
  }

  lemma FirstFault(caps: seq<CapSlot>, ds: seq<Descriptor>, i: nat) returns (k: nat)
    requires i <= |ds| && !NoFault(caps, ds) && forall j | 0 <= j < i :: !Malformed(ds[j]) && !Taken(caps, ds, j)
    ensures k < |ds| && (Malformed(ds[k]) || Taken(caps, ds, k))
    ensures forall j | 0 <= j < k :: !Malformed(ds[j]) && !Taken(caps, ds, j)
    decreases |ds| - i
  {
    hide Malformed, Taken;
    if i < |ds| && !Malformed(ds[i]) && !Taken(caps, ds, i) {
      k := FirstFault(caps, ds, i + 1);
    } else {
      k := i;
    }
  }

  /**
   With memory, a group is registered exactly when it has an id that is not in use, at least one descriptor and
   no fault in any, and its init callback, if it has one, succeeds. Without memory it may only be refused more.
   */
  lemma RegisterIff(rt: Runtime, group: Group, initOk: bool, alloc: Allocation)
    requires GraphOk(rt)
    ensures var acceptable :=
        && group.groupId != "" && group.descriptors != [] && !IdInUse(rt.groups, group.groupId)
        && NoFault(rt.caps, group.descriptors) && (group.hasInit ==> initOk);
      && (alloc == Allocation(true, true, true) ==> (RegisterGroup(rt, group, initOk, alloc).err == Err.Ok <==> acceptable))
      && (RegisterGroup(rt, group, initOk, alloc).err == Err.Ok ==> acceptable && alloc.memberList)
  {
    hide ValidateGroup, NoFault, IdInUse;
    ValidIff(rt, group);
    CapacitySuffices(rt, group, initOk);
  }

  /** Without memory for a table that has no free slot, or for the member list, an otherwise sound group is refused. */
  lemma NoMemory(rt: Runtime, group: Group, initOk: bool, alloc: Allocation)
    requires ValidateGroup(rt, group) == Err.Ok
    requires || !alloc.memberList
             || (!alloc.groupTable && forall g | 0 <= g < |rt.groups| :: rt.groups[g].occupied)
             || (!alloc.capTable && forall s | 0 <= s < |rt.caps| :: rt.caps[s].occupied)
    ensures RegisterGroup(rt, group, initOk, alloc).err == NoMem
  {
    hide ValidateFrom, Fill;
    if forall g | 0 <= g < |rt.groups| :: rt.groups[g].occupied {
      AllUsed(rt.groups);
    }
    if forall s | 0 <= s < |rt.caps| :: rt.caps[s].occupied {
      NoneFree(rt.caps);
    }
  }

  // ---- What it leaves behind ----

  /** Slot s is in use, or given to a member from the i-th to before the k-th. */
  ghost predicate Gone(caps: seq<CapSlot>, members: seq<nat>, i: nat, k: nat, s: nat)
    requires i <= k <= |members| && s < |caps|
  {
    caps[s].occupied || exists j | i <= j < k :: members[j] == s
  }

  /** From the i-th on, each member is the lowest slot that is free when its turn comes. */
  ghost predicate Lowest(caps: seq<CapSlot>, members: seq<nat>, i: nat) {
    forall k, s | i <= k < |members| && 0 <= s < members[k] && s < |caps| :: Gone(caps, members, i, k, s)
  }

  lemma LowestFirst(caps: seq<CapSlot>, slot: CapSlot, members: seq<nat>, i: nat)
    requires i < |members| && members[i] < |caps| && Lowest(caps[members[i] := slot], members, i + 1)
    requires forall s | 0 <= s < members[i] :: caps[s].occupied
    ensures Lowest(caps, members, i)
  {
    forall k, s | i <= k < |members| && 0 <= s < members[k] && s < |caps| ensures Gone(caps, members, i, k, s) {
      if k > i {
        assert Gone(caps[members[i] := slot], members, i + 1, k, s);
        if s == members[i] {
          assert members[i] == s && i < k;
        }
      }
    }
  }

  lemma {:induction false} FillLowest(caps: seq<CapSlot>, g: nat, ds: seq<Descriptor>, members: seq<nat>, i: nat)
    requires i <= |ds| == |members| && Fill(caps, g, ds, members, i).ok
    ensures var r := Fill(caps, g, ds, members, i);
      r.members[..i] == members[..i] && Lowest(caps, r.members, i)
    decreases |ds| - i
  {
    hide Enlist, Lowest;
    if i < |ds| {
      var t := FindFreeCap(caps).value;
      var slot := Enlist(caps[t], ds[i], g);
      FillLowest(caps[t := slot], g, ds, members[i := t], i + 1);
      var r := Fill(caps[t := slot], g, ds, members[i := t], i + 1);
      assert r.members[i] == r.members[..i + 1][i] == t;
      assert r.members[..i] == r.members[..i + 1][..i] == members[..i];
      LowestFirst(caps, slot, r.members, i);
    } else {
      NoneLeft(caps, Fill(caps, g, ds, members, i).members, i);
    }
  }

  lemma NoneLeft(caps: seq<CapSlot>, members: seq<nat>, i: nat)
    requires i == |members|
    ensures Lowest(caps, members, i)
  {
  }

  /** Slot s was in use before, or goes to one of the first k descriptors. */
  ghost predicate NotFree(before: seq<CapSlot>, members: seq<nat>, k: nat, s: nat)
    requires k <= |members|
  {
    (s < |before| && before[s].occupied) || exists j | 0 <= j < k :: members[j] == s
  }

  /**
   A registered group takes a free slot, and its descriptors the lowest free slots in order, fresh: registered,
   with no init done and no call counted.
   */
  lemma RegisteredAs(rt: Runtime, group: Group, initOk: bool, alloc: Allocation)
    requires GraphOk(rt) && RegisterGroup(rt, group, initOk, alloc).err == Err.Ok
    ensures var r := RegisterGroup(rt, group, initOk, alloc);
      && r.slot < |r.rt.groups| && (r.slot < |rt.groups| ==> !rt.groups[r.slot].occupied)
      && var slot := r.rt.groups[r.slot];
         && slot.occupied && slot.group == group && slot.state == LifeState.Registered
         && |slot.members| == |group.descriptors|
         && (forall k | 0 <= k < |slot.members| ::
               && slot.members[k] < |r.rt.caps|
               && r.rt.caps[slot.members[k]]
                  == CapSlot(true, group.descriptors[k], r.slot, LifeState.Registered, false, 0)
               && forall s | 0 <= s < slot.members[k] :: NotFree(rt.caps, slot.members, k, s))
  {
    RegisterKeepsGraph(rt, group, initOk, alloc);
    LowestSlots(rt, group, initOk, alloc);
    var r := RegisterGroup(rt, group, initOk, alloc);
    assert GroupOk(r.rt, r.slot);
    forall k | 0 <= k < |r.rt.groups[r.slot].members|
      ensures r.rt.groups[r.slot].members[k] < |r.rt.caps|
      ensures r.rt.caps[r.rt.groups[r.slot].members[k]]
           == CapSlot(true, group.descriptors[k], r.slot, LifeState.Registered, false, 0)
    {
      hide RegisterGroup, NamesDistinct;
      assert MemberOk(r.rt, r.slot, k);
    }
  }

  lemma FilledInto(rt: Runtime, group: Group, initOk: bool, memberList: bool)
    requires RegisterInto(rt, group, initOk, memberList).err == Err.Ok
    ensures var r := RegisterInto(rt, group, initOk, memberList);
      && r.slot < |r.rt.groups| && |r.rt.caps| == |rt.caps|
      && Lowest(rt.caps, r.rt.groups[r.slot].members, 0)
  {
    hide Fill, Lowest;
    FillLowest(rt.caps, FindFreeGroup(rt.groups).value, group.descriptors, seq(|group.descriptors|, i => 0), 0);
  }

  lemma LowestSlots(rt: Runtime, group: Group, initOk: bool, alloc: Allocation)
    requires RegisterGroup(rt, group, initOk, alloc).err == Err.Ok
    ensures var r := RegisterGroup(rt, group, initOk, alloc);
      && r.slot < |r.rt.groups|
      && forall k, s | 0 <= k < |r.rt.groups[r.slot].members| && 0 <= s < r.rt.groups[r.slot].members[k] && s < |r.rt.caps| ::
           NotFree(rt.caps, r.rt.groups[r.slot].members, k, s)
  {
    hide RegisterInto, ValidateGroup, EnsuredCaps, EnsuredGroups, Lowest;
    EnsuredCapsSuffice(rt.caps, |group.descriptors|, alloc.capTable);
    var caps := EnsuredCaps(rt.caps, |group.descriptors|, alloc.capTable).value;
    var groups := EnsuredGroups(rt.groups, 1, alloc.groupTable).value;
    FilledInto(rt.(groups := groups, caps := caps), group, initOk, alloc.memberList);
    var r := RegisterGroup(rt, group, initOk, alloc);
    LowestBefore(rt.caps, caps, r.rt.groups[r.slot].members);
  }

  lemma LowestBefore(before: seq<CapSlot>, caps: seq<CapSlot>, members: seq<nat>)
    requires before <= caps && Lowest(caps, members, 0)
    requires forall i | |before| <= i < |caps| :: caps[i] == FREE_CAP
    ensures forall k, s | 0 <= k < |members| && 0 <= s < members[k] && s < |caps| :: NotFree(before, members, k, s)
  {
    forall k, s | 0 <= k < |members| && 0 <= s < members[k] && s < |caps|
      ensures NotFree(before, members, k, s)
    {
      assert Gone(caps, members, 0, k, s);
      if s < |before| {
        assert before[s] == caps[s];
      }
    }
  }

  /** A table that has to grow gets a quarter more than it needs, and at least four entries more. */
  lemma GrowsBy(capacity: nat, required: nat)
    ensures required <= 4 && capacity == 0 ==> GrownCapacity(capacity, required) == 4
    ensures required > capacity && (capacity > 0 || required > 4) ==>
              GrownCapacity(capacity, required) == required + if required / 4 < 4 then 4 else required / 4
  {
  }
}
