/**
 The tool list shown to an agent against the calls that agent may make
 (components/claw_cap/src/claw_cap.c, lines 332-387, 605-688 and 1832-1844).
 */
module CapAdvertise {
  import opened Common
  import opened CapTypes

  /** Names of the first n slots that authorisation lets through, in slot order. */
  function ToolsUpTo(rt: Runtime, ctx: Option<Context>, n: nat): seq<string>
    requires n <= |rt.caps|
  {
    if n == 0 then []
    else ToolsUpTo(rt, ctx, n - 1)
         + if Authorize(rt, rt.caps[n - 1], ctx).AuthOk? then [rt.caps[n - 1].descriptor.name] else []
  }

  function Tools(rt: Runtime, ctx: Option<Context>): seq<string> {
    ToolsUpTo(rt, ctx, |rt.caps|)
  }

  lemma {:induction false} ToolsUpToHas(rt: Runtime, ctx: Option<Context>, n: nat, name: string)
    requires n <= |rt.caps|
    ensures name in ToolsUpTo(rt, ctx, n) <==>
            exists s | 0 <= s < n :: Authorize(rt, rt.caps[s], ctx).AuthOk? && rt.caps[s].descriptor.name == name
  {
    if n > 0 {
      ToolsUpToHas(rt, ctx, n - 1, name);
    }
  }

  /** No descriptor's id is another descriptor's name. */
  ghost predicate NoCrossNames(rt: Runtime) {
    forall i, j | 0 <= i < |rt.caps| && 0 <= j < |rt.caps| && i != j
                  && rt.caps[i].occupied && rt.caps[j].occupied ::
      rt.caps[i].descriptor.id != rt.caps[j].descriptor.name
  }

  /** The slot claw_cap_call would admit for this target, if any. */
  function Admitted(rt: Runtime, target: string, ctx: Option<Context>): Option<nat> {
    match FindCap(rt.caps, target)
    case None => None
    case Some(s) => if Admits(rt, rt.caps[s], ctx) then Some(s) else None
  }

  /** A name leads a call to its own slot exactly when no earlier descriptor uses that name as its id. */
  lemma NameReachesSlot(rt: Runtime, s: nat)
    requires GraphOk(rt) && s < |rt.caps| && rt.caps[s].occupied
    ensures FindCap(rt.caps, rt.caps[s].descriptor.name) == Some(s)
       <==> forall j | 0 <= j < s && rt.caps[j].occupied :: rt.caps[j].descriptor.id != rt.caps[s].descriptor.name
  {
    assert CapOk(rt, s);
    var name := rt.caps[s].descriptor.name;
    assert Answers(rt.caps[s], name);
    if FindCap(rt.caps, name) != Some(s) {
      var j := FindCap(rt.caps, name).value;
      assert j < s && Answers(rt.caps[j], name);
    }
  }

  /**
   The tools listed for an agent are exactly the descriptors a call with the same context would
   admit in the same state, whether they are called by name or by id.
   */
  lemma AdvertisedIsAdmitted(rt: Runtime, ctx: Option<Context>, s: nat)
    requires GraphOk(rt) && NoCrossNames(rt) && FromAgent(ctx)
    requires s < |rt.caps| && rt.caps[s].occupied
    ensures rt.caps[s].descriptor.name in Tools(rt, ctx) <==> Admitted(rt, rt.caps[s].descriptor.name, ctx) == Some(s)
    ensures rt.caps[s].descriptor.name in Tools(rt, ctx) <==> Admitted(rt, rt.caps[s].descriptor.id, ctx) == Some(s)
  {
    var d := rt.caps[s].descriptor;
    assert CapOk(rt, s);
    ToolsUpToHas(rt, ctx, |rt.caps|, d.name);
    assert Answers(rt.caps[s], d.name) && Answers(rt.caps[s], d.id);
    var byName := FindCap(rt.caps, d.name).value;
    var byId := FindCap(rt.caps, d.id).value;
    assert byName == s && byId == s;
    if d.name in Tools(rt, ctx) {
      var t :| 0 <= t < |rt.caps| && Authorize(rt, rt.caps[t], ctx).AuthOk? && rt.caps[t].descriptor.name == d.name;
      assert t == s;
    }
  }

  /** A call by any word is admitted only to a slot whose name is listed, and every listed name is admitted. */
  lemma ToolsAreTheAdmissibleWords(rt: Runtime, ctx: Option<Context>, word: string)
    requires GraphOk(rt) && NoCrossNames(rt) && FromAgent(ctx)
    ensures word in Tools(rt, ctx) ==> Admitted(rt, word, ctx).Some?
    ensures Admitted(rt, word, ctx).Some? ==>
              rt.caps[Admitted(rt, word, ctx).value].descriptor.name in Tools(rt, ctx)
  {
    ToolsUpToHas(rt, ctx, |rt.caps|, word);
    if word in Tools(rt, ctx) {
      var t :| 0 <= t < |rt.caps| && Authorize(rt, rt.caps[t], ctx).AuthOk? && rt.caps[t].descriptor.name == word;
      AdvertisedIsAdmitted(rt, ctx, t);
    }
    match Admitted(rt, word, ctx)
    case None =>
    case Some(s) => ToolsUpToHas(rt, ctx, |rt.caps|, rt.caps[s].descriptor.name);
  }

  /** What a sub-agent may call an agent may, and what either may call anyone outside the agents may. */
  lemma CallersAreOrdered(rt: Runtime, target: string, session: string, caller: Option<Context>)
    requires !FromAgent(caller)
    ensures Admitted(rt, target, Some(Context(SubAgent, session))).Some? ==>
              Admitted(rt, target, Some(Context(SubAgent, session))) == Admitted(rt, target, Some(Context(Agent, session)))
    ensures Admitted(rt, target, Some(Context(Agent, session))).Some? ==>
              Admitted(rt, target, Some(Context(Agent, session))) == Admitted(rt, target, caller)
  {
  }

  /** An earlier descriptor uses this one's name as its id. */
  ghost predicate Shadowed(rt: Runtime, s: nat)
    requires s < |rt.caps|
  {
    exists j | 0 <= j < s :: rt.caps[j].occupied && rt.caps[j].descriptor.id == rt.caps[s].descriptor.name
  }

  /** One slot: it is listed when authorised, and a call by its name reaches it when it is also not shadowed. */
  lemma ListedAndReached(rt: Runtime, ctx: Option<Context>, s: nat)
    requires GraphOk(rt) && FromAgent(ctx) && s < |rt.caps| && rt.caps[s].occupied
    ensures rt.caps[s].descriptor.name in Tools(rt, ctx) <==> Authorize(rt, rt.caps[s], ctx).AuthOk?
    ensures Admitted(rt, rt.caps[s].descriptor.name, ctx) == Some(s)
       <==> Authorize(rt, rt.caps[s], ctx).AuthOk? && !Shadowed(rt, s)
  {
    var name := rt.caps[s].descriptor.name;
    ToolsUpToHas(rt, ctx, |rt.caps|, name);
    NameReachesSlot(rt, s);
    if name in Tools(rt, ctx) {
      var t :| 0 <= t < |rt.caps| && Authorize(rt, rt.caps[t], ctx).AuthOk? && rt.caps[t].descriptor.name == name;
      assert t == s;
    }
  }

  /** Exactly when the listed tools are the ones a call by name is admitted to: no listed tool is shadowed. */
  lemma AdvertisedIsAdmittedIff(rt: Runtime, ctx: Option<Context>)
    requires GraphOk(rt) && FromAgent(ctx)
    ensures (forall s | 0 <= s < |rt.caps| && rt.caps[s].occupied ::
               rt.caps[s].descriptor.name in Tools(rt, ctx) <==> Admitted(rt, rt.caps[s].descriptor.name, ctx) == Some(s))
       <==> (forall s | 0 <= s < |rt.caps| && rt.caps[s].occupied && rt.caps[s].descriptor.name in Tools(rt, ctx) ::
               !Shadowed(rt, s))
  {
    forall s | 0 <= s < |rt.caps| && rt.caps[s].occupied
      ensures var name := rt.caps[s].descriptor.name;
        (name in Tools(rt, ctx) <==> Admitted(rt, name, ctx) == Some(s))
        <==> (name in Tools(rt, ctx) ==> !Shadowed(rt, s))
    {
      ListedAndReached(rt, ctx, s);
    }
  }
}
