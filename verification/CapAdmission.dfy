/**
 Who may call what, in terms of the descriptors and the lists that were configured
 (components/claw_cap/src/claw_cap.c, lines 332-387, 591-688, 758-779 and 1807-1856): the calls that
 are let through after any run, the tools an agent is shown, and the two written out field by field.
 Main results: AgentCallIff, OtherCallIff, ToolsAre.
 */
module CapAdmission {
  import opened Common
  import opened CapVisibility
  import opened CapTypes
  import opened CapWorld
  import opened CapInvariant
  import opened CapTheorems
  import opened CapAdvertise
  import opened CapExposure

  /** Slot s is the first occupied one whose id or name is the target. */
  ghost predicate LeadsTo(caps: seq<CapSlot>, target: string, s: nat) {
    && target != "" && s < |caps| && caps[s].occupied
    && (caps[s].descriptor.id == target || caps[s].descriptor.name == target)
    && forall j | 0 <= j < s && caps[j].occupied :: caps[j].descriptor.id != target && caps[j].descriptor.name != target
  }

  /** The group of this slot is shown to the session, as this run configured it last. */
  ghost predicate ShownTo(steps: seq<Step>, slot: CapSlot, session: string) {
    var groups := Run(EMPTY, steps).rt.groups;
    && slot.groupSlot < |groups|
    && Shown(GlobalList(steps), LastList(SessionUpdates(steps), session), groups[slot.groupSlot].group.groupId)
  }

  lemma LeadsToIs(caps: seq<CapSlot>, target: string, s: nat)
    ensures LeadsTo(caps, target, s) <==> FindCap(caps, target) == Some(s)
  {
    match FindCap(caps, target)
    case None => assert s < |caps| && target != "" ==> !Answers(caps[s], target);
    case Some(i) =>
      assert Answers(caps[i], target);
      assert i < s && s < |caps| ==> !LeadsTo(caps, target, s);
      assert s < i ==> !Answers(caps[s], target);
      if i == s {
        forall j | 0 <= j < s && caps[j].occupied
          ensures caps[j].descriptor.id != target && caps[j].descriptor.name != target
        {
          assert !Answers(caps[j], target);
        }
      }
  }

  /** The authorisation test, after any run, field by field. */
  lemma AuthorizedIff(steps: seq<Step>, s: nat, ctx: Option<Context>)
    requires s < |Run(EMPTY, steps).rt.caps|
    ensures var slot := Run(EMPTY, steps).rt.caps[s];
      Authorize(Run(EMPTY, steps).rt, slot, ctx) == AuthOk <==>
        && slot.occupied && (slot.state == LifeState.Registered || slot.state == Started)
        && slot.descriptor.hasExecute && (slot.descriptor.kind == Callable || slot.descriptor.kind == Hybrid)
        && slot.descriptor.callableByLlm
        && !(ctx.Some? && ctx.value.caller == SubAgent && slot.descriptor.rootAgentOnly)
        && ShownTo(steps, slot, if ctx.Some? then ctx.value.session else "")
  {
    var w := Run(EMPTY, steps);
    EmptyStands();
    RunKeeps(EMPTY, steps);
    if w.rt.caps[s].occupied {
      assert CapOk(w.rt, s);
      hide Run, GroupVisible, Shown;
      VisibleAsConfigured(steps, w.rt.caps[s].groupSlot, if ctx.Some? then ctx.value.session else "");
    }
  }

  /**
   After any run, an agent's call by a word is let through exactly when the first slot that answers to the
   word may be called by it, and it is counted on that slot; a word no slot answers to lets nothing through.
   */
  lemma AgentCallIff(steps: seq<Step>, call: CallId, target: string, ctx: Context, s: nat)
    requires call !in Run(EMPTY, steps).calls && (ctx.caller == Agent || ctx.caller == SubAgent)
    ensures var w := Run(EMPTY, steps);
      var after := Apply(w, Admit(call, target, Some(ctx)));
      call in after.calls && after.calls[call] == s <==>
        && LeadsTo(w.rt.caps, target, s)
        && var slot := w.rt.caps[s];
           && (slot.state == LifeState.Registered || slot.state == Started)
           && slot.descriptor.hasExecute && (slot.descriptor.kind == Callable || slot.descriptor.kind == Hybrid)
           && slot.descriptor.callableByLlm
           && !(ctx.caller == SubAgent && slot.descriptor.rootAgentOnly)
           && ShownTo(steps, slot, ctx.session)
  {
    hide Run, Authorize, ShownTo;
    var w := Run(EMPTY, steps);
    LeadsToIs(w.rt.caps, target, s);
    if FindCap(w.rt.caps, target) == Some(s) {
      AuthorizedIff(steps, s, Some(ctx));
    }
  }

  /** A call from anyone else needs no more than a usable slot with something to execute. */
  lemma OtherCallIff(steps: seq<Step>, call: CallId, target: string, ctx: Option<Context>, s: nat)
    requires call !in Run(EMPTY, steps).calls
    requires ctx.None? || ctx.value.caller == System || ctx.value.caller == Console
    ensures var w := Run(EMPTY, steps);
      var after := Apply(w, Admit(call, target, ctx));
      call in after.calls && after.calls[call] == s <==>
        && LeadsTo(w.rt.caps, target, s)
        && (w.rt.caps[s].state == LifeState.Registered || w.rt.caps[s].state == Started)
        && w.rt.caps[s].descriptor.hasExecute
  {
    hide Run;
    LeadsToIs(Run(EMPTY, steps).rt.caps, target, s);
  }

  /**
   After any run the tool list names exactly the slots that may be called with that context, in slot
   order: on names[k] is the slot picked[k], and every slot that may be called is picked.
   */
  lemma ToolsAre(steps: seq<Step>, ctx: Option<Context>) returns (picked: seq<nat>)
    ensures var rt := Run(EMPTY, steps).rt;
      && |picked| == |Tools(rt, ctx)|
      && (forall k | 0 <= k < |picked| ::
            picked[k] < |rt.caps| && Tools(rt, ctx)[k] == rt.caps[picked[k]].descriptor.name)
      && (forall k, l | 0 <= k < l < |picked| :: picked[k] < picked[l])
      && (forall s | 0 <= s < |rt.caps| :: s in picked <==>
            var slot := rt.caps[s];
            && slot.occupied && (slot.state == LifeState.Registered || slot.state == Started)
            && slot.descriptor.hasExecute && (slot.descriptor.kind == Callable || slot.descriptor.kind == Hybrid)
            && slot.descriptor.callableByLlm
            && !(ctx.Some? && ctx.value.caller == SubAgent && slot.descriptor.rootAgentOnly)
            && ShownTo(steps, slot, if ctx.Some? then ctx.value.session else ""))
  {
    hide Run, Authorize, ShownTo;
    var rt := Run(EMPTY, steps).rt;
    picked := Picked(rt, ctx, |rt.caps|);
    forall s | 0 <= s < |rt.caps| ensures s in picked <==> Authorize(rt, rt.caps[s], ctx) == AuthOk {
    }
    forall s | 0 <= s < |rt.caps| {
      AuthorizedIff(steps, s, ctx);
    }
  }

  lemma {:induction false} Picked(rt: Runtime, ctx: Option<Context>, n: nat) returns (picked: seq<nat>)
    requires n <= |rt.caps|
    ensures |picked| == |ToolsUpTo(rt, ctx, n)|
    ensures forall k | 0 <= k < |picked| ::
              picked[k] < n && ToolsUpTo(rt, ctx, n)[k] == rt.caps[picked[k]].descriptor.name
    ensures forall k, l | 0 <= k < l < |picked| :: picked[k] < picked[l]
    ensures forall s | 0 <= s < n :: s in picked <==> Authorize(rt, rt.caps[s], ctx) == AuthOk
  {
    hide Authorize;
    picked := [];
    if n > 0 {
      picked := Picked(rt, ctx, n - 1);
      if Authorize(rt, rt.caps[n - 1], ctx) == AuthOk {
        picked := picked + [n - 1];
      }
    }
  }
}
