/**
 Which pooled handle an init gets (components/http_reuse/esp_http_client_reuse.c, lines 246-262 and
 325-360), in terms of the endpoints: what a hit promises, when there is one, and where the endpoint
 of a pooled handle comes from.
 Main results: HitIff, UnhealthyIsDestroyed, NodeEndpoint.
 */
module HttpMatching {
  import opened Common
  import opened HttpPool
  import opened HttpWorld
  import opened HttpInvariant
  import opened HttpTheorems

  /** One character, in upper or lower case. */
  ghost predicate SameLetter(a: char, b: char) {
    || a == b
    || ('A' <= a <= 'Z' && b as int == a as int + 32)
    || ('A' <= b <= 'Z' && a as int == b as int + 32)
  }

  /** The same server: transport and port are equal, and the host names up to the case of ASCII letters. */
  ghost predicate SameServer(a: Endpoint, b: Endpoint) {
    && a.transport == b.transport && a.port == b.port && |a.host| == |b.host|
    && forall i | 0 <= i < |a.host| :: SameLetter(a.host[i], b.host[i])
  }

  lemma LowerIs(a: char, b: char)
    ensures Lower(a) == Lower(b) <==> SameLetter(a, b)
  {
  }

  lemma MatchesIs(a: Endpoint, b: Endpoint)
    ensures Matches(a, b) <==> SameServer(a, b)
  {
    hide Lower, SameLetter;
    forall i | 0 <= i < |a.host| && |a.host| == |b.host|
      ensures Lower(a.host[i]) == Lower(b.host[i]) <==> SameLetter(a.host[i], b.host[i])
    {
      LowerIs(a.host[i], b.host[i]);
    }
  }

  /** Node i of the pool is the first idle one for this server. */
  ghost predicate FirstIdleFor(pool: seq<Node>, target: Endpoint, i: nat) {
    && i < |pool| && pool[i].persistent && !pool[i].leased && SameServer(target, pool[i].endpoint)
    && forall j | 0 <= j < i && pool[j].persistent && !pool[j].leased :: !SameServer(target, pool[j].endpoint)
  }

  lemma FindIdleIs(pool: seq<Node>, target: Endpoint, i: nat)
    ensures FirstIdleFor(pool, target, i) <==> FindIdle(pool, target) == Some(i)
  {
    hide Matches, SameServer;
    forall j | 0 <= j < |pool| ensures Matches(target, pool[j].endpoint) <==> SameServer(target, pool[j].endpoint) {
      MatchesIs(target, pool[j].endpoint);
    }
  }

  /**
   An init hands out the pooled handle c exactly when, after the reap, c is the first idle one for the
   same server and its connection is healthy. Its node keeps that endpoint and is leased from then on, and
   before the reap it was idle for less than the timeout.
   */
  lemma HitIff(w: World, cfg: Config, target: Endpoint, healthy: bool, c: Client)
    requires Inv(w, cfg) && PlaceOf(w, c) == Some(Pooled)
    ensures var r, after := ReapNow(w, cfg.timeout), Apply(w, cfg, InitTake(target, healthy));
      && (PlaceOf(after, c) == Some(Taken)
          <==> healthy && exists i: nat :: FirstIdleFor(r.pool, target, i) && r.pool[i].client == c)
      && (PlaceOf(after, c) == Some(Taken) ==>
            && NodeOf(after.pool, c).Some? && SameServer(target, NodeOf(after.pool, c).value.endpoint)
            && NodeOf(w.pool, c).Some? && NodeOf(after.pool, c).value.endpoint == NodeOf(w.pool, c).value.endpoint
            && NodeOf(after.pool, c).value.leased)
  {
    hide Inv, ReapNow, SameServer, Matches, Apply, NodeOf;
    var r := ReapNow(w, cfg.timeout);
    TakenIff(w, cfg, target, healthy, c);
    if FindIdle(r.pool, target).Some? {
      var i := FindIdle(r.pool, target).value;
      FindIdleIs(r.pool, target, i);
      MatchesIs(target, r.pool[i].endpoint);
    }
    if j: nat :| FirstIdleFor(r.pool, target, j) && r.pool[j].client == c {
      FindIdleIs(r.pool, target, j);
    }
  }

  lemma TakenIff(w: World, cfg: Config, target: Endpoint, healthy: bool, c: Client)
    requires Inv(w, cfg) && PlaceOf(w, c) == Some(Pooled)
    ensures var r, after := ReapNow(w, cfg.timeout), Apply(w, cfg, InitTake(target, healthy));
      var i := FindIdle(r.pool, target);
      && (PlaceOf(after, c) == Some(Taken) <==> healthy && i.Some? && r.pool[i.value].client == c)
      && (PlaceOf(after, c) == Some(Taken) ==>
            && NodeOf(w.pool, c) == Some(r.pool[i.value])
            && NodeOf(after.pool, c) == Some(TakenNode(r.pool[i.value], TickOf(r))))
  {
    hide Inv, ReapNow, Matches;
    PooledAfterReap(w, cfg, c);
    var r := ReapNow(w, cfg.timeout);
    if FindIdle(r.pool, target).Some? {
      var i := FindIdle(r.pool, target).value;
      NodeAt(r.pool, i);
      NodeUpdated(r.pool, i, TakenNode(r.pool[i], TickOf(r)), c);
    }
  }

  lemma PooledAfterReap(w: World, cfg: Config, c: Client)
    requires Inv(w, cfg) && PlaceOf(w, c) == Some(Pooled)
    ensures var r := ReapNow(w, cfg.timeout);
      && Inv(r, cfg) && DistinctClients(r.pool) && PlaceOf(r, c) in {None, Some(Pooled)}
      && (NodeOf(r.pool, c).Some? ==> NodeOf(w.pool, c) == NodeOf(r.pool, c))
  {
    hide Reaped, ReapedClients, HandleOk, Lawful, Live;
    ReapNowKeeps(w, cfg);
  }

  /** A handle that is handed out had been idle for less than the timeout. */
  lemma HitIsFresh(w: World, cfg: Config, target: Endpoint, healthy: bool, c: Client)
    requires Inv(w, cfg) && PlaceOf(w, c) == Some(Pooled) && Age(w, c) < WORD
    ensures PlaceOf(Apply(w, cfg, InitTake(target, healthy)), c) == Some(Taken) ==> Age(w, c) < cfg.timeout
  {
    HitIff(w, cfg, target, healthy, c);
    IdleWhenPooled(w, cfg, c);
    ReapIsExact(w, cfg, c);
    hide Inv, ReapNow, SameServer, Apply;
    var r := ReapNow(w, cfg.timeout);
    if PlaceOf(Apply(w, cfg, InitTake(target, healthy)), c) == Some(Taken) {
      var i: nat :| FirstIdleFor(r.pool, target, i) && r.pool[i].client == c;
      assert FindNode(r.pool, c).Some?;
    }
  }

  lemma IdleWhenPooled(w: World, cfg: Config, c: Client)
    requires Inv(w, cfg) && PlaceOf(w, c) == Some(Pooled)
    ensures IdleAt(w, c)
  {
    assert HandleOk(w, c);
  }

  /** A first idle handle whose connection is broken is destroyed, and the init gets none. */
  lemma UnhealthyIsDestroyed(w: World, cfg: Config, target: Endpoint, i: nat)
    requires Inv(w, cfg) && FirstIdleFor(ReapNow(w, cfg.timeout).pool, target, i)
    ensures var r, after := ReapNow(w, cfg.timeout), Apply(w, cfg, InitTake(target, false));
      && r.pool[i].client !in after.at && after.pool == r.pool[..i] + r.pool[i + 1..]
      && after.log == r.log + [Destroyed(r.pool[i].client)]
  {
    hide Inv, ReapNow, SameServer, Matches;
    FindIdleIs(ReapNow(w, cfg.timeout).pool, target, i);
  }

  // ---- Where endpoints come from ----

  /** Over one step a pooled handle keeps its endpoint, or has just come back with this one. */
  lemma StepKeepsEndpoint(w: World, cfg: Config, step: Step, c: Client)
    requires Inv(w, cfg) && NodeOf(Apply(w, cfg, step).pool, c).Some?
    ensures var n := NodeOf(Apply(w, cfg, step).pool, c).value;
      if NodeOf(w.pool, c).Some? then n.endpoint == NodeOf(w.pool, c).value.endpoint
      else step == Leave(c, Some(n.endpoint), true)
  {
    hide Lawful, Live, Counts, HandleOk, InitTakeStep, DiscardStep, DecideStep, CleanupStep, LeaveStep, ReapNow;
    match step
    case ReapTimer => ReapKeepsEndpoint(w, cfg, c);
    case InitTake(target, healthy) => TakeKeepsEndpoint(w, cfg, target, healthy, c);
    case Discard(d) => OwnKeepsEndpoint(w, cfg, d, true, c);
    case Decide(d) => OwnKeepsEndpoint(w, cfg, d, true, c);
    case Cleanup(d, persistent) => OwnKeepsEndpoint(w, cfg, d, persistent, c);
    case Leave(d, ep, alloc) => if PlaceOf(w, d) == Some(Leaving) { LeaveKeepsEndpoint(w, cfg, d, ep, alloc, c); }
    case _ =>
  }

  lemma ReapKeepsEndpoint(w: World, cfg: Config, c: Client)
    requires Inv(w, cfg)
    ensures NodeOf(ReapNow(w, cfg.timeout).pool, c).Some? ==> NodeOf(ReapNow(w, cfg.timeout).pool, c) == NodeOf(w.pool, c)
  {
    hide Lawful, Live, Counts, HandleOk, Reaped, ReapedClients;
    ReapNowKeeps(w, cfg);
  }

  lemma TakeKeepsEndpoint(w: World, cfg: Config, target: Endpoint, healthy: bool, c: Client)
    requires Inv(w, cfg) && NodeOf(InitTakeStep(w, cfg, target, healthy).pool, c).Some?
    ensures NodeOf(w.pool, c).Some?
    ensures NodeOf(InitTakeStep(w, cfg, target, healthy).pool, c).value.endpoint == NodeOf(w.pool, c).value.endpoint
  {
    hide Lawful, Live, Counts, HandleOk, ReapNow, Matches;
    ReapNowKeeps(w, cfg);
    ReapKeepsEndpoint(w, cfg, c);
    var r := ReapNow(w, cfg.timeout);
    if FindIdle(r.pool, target).Some? {
      var i := FindIdle(r.pool, target).value;
      NodeAt(r.pool, i);
      NodeRemoved(r.pool, i);
      NodeUpdated(r.pool, i, TakenNode(r.pool[i], TickOf(r)), c);
    }
  }

  lemma OwnKeepsEndpoint(w: World, cfg: Config, d: Client, persistent: bool, c: Client)
    requires Inv(w, cfg)
    ensures forall pool | pool in {DiscardStep(w, d).pool, DecideStep(w, d).pool, CleanupStep(w, d, persistent).pool} ::
              NodeOf(pool, c).Some? ==>
                NodeOf(w.pool, c).Some? && NodeOf(pool, c).value.endpoint == NodeOf(w.pool, c).value.endpoint
  {
    hide Lawful, Live, Counts, HandleOk, LeaseOf;
    if FindNode(w.pool, d).Some? {
      var i := FindNode(w.pool, d).value;
      NodeAt(w.pool, i);
      NodeRemoved(w.pool, i);
      NodeUpdated(w.pool, i, w.pool[i].(reused := false), c);
      NodeUpdated(w.pool, i, ReturnedNode(w.pool[i], TickOf(w)), c);
    }
  }

  lemma LeaveKeepsEndpoint(w: World, cfg: Config, d: Client, ep: Option<Endpoint>, alloc: bool, c: Client)
    requires Inv(w, cfg) && PlaceOf(w, d) == Some(Leaving) && NodeOf(LeaveStep(w, cfg, d, ep, alloc).pool, c).Some?
    ensures var n := NodeOf(LeaveStep(w, cfg, d, ep, alloc).pool, c).value;
      if NodeOf(w.pool, c).Some? then n.endpoint == NodeOf(w.pool, c).value.endpoint
      else d == c && ep == Some(n.endpoint) && alloc
  {
    hide Lawful, Live, Counts, MakeRoom, ReapNow;
    if ep.Some? {
      ReapNowKeeps(w, cfg);
      ReapKeepsEndpoint(w, cfg, c);
      var r := ReapNow(w, cfg.timeout);
      TicksFit(r, cfg);
      MakeRoomShrinks(r.pool, cfg.maxPool);
      var room := MakeRoom(r.pool, cfg.maxPool);
      assert HandleOk(w, d);
      ReapKeepsEndpoint(w, cfg, d);
      assert NodeOf(room.pool, d).None?;
      NodeAppended(room.pool, NewIdle(d, ep.value, TickOf(w)), c);
      assert TickOf(Shed(r, room.pool, room.evicted)) == TickOf(w);
    }
  }

  /** Over every run, the endpoint of a pooled handle is one that was given when that handle came back to the pool. */
  lemma {:induction false} NodeEndpoint(cfg: Config, steps: seq<Step>, c: Client)
    requires NodeOf(Run(EMPTY, cfg, steps).pool, c).Some?
    ensures Leave(c, Some(NodeOf(Run(EMPTY, cfg, steps).pool, c).value.endpoint), true) in steps
  {
    hide Inv, Apply;
    if steps != [] {
      var before := steps[..|steps| - 1];
      RunKeeps(cfg, before);
      StepKeepsEndpoint(Run(EMPTY, cfg, before), cfg, steps[|steps| - 1], c);
      if NodeOf(Run(EMPTY, cfg, before).pool, c).Some? {
        NodeEndpoint(cfg, before, c);
      }
    }
  }
}
