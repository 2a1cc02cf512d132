/**
 The three wrappers as whole calls (components/http_reuse/esp_http_client_reuse.c, lines 505-713),
 with any steps of other tasks, of the reaper and of the clock between their regions.
 Main results: WholeInitHit, WholeInitNew, WholePerform, WholeCleanup.
 */
module HttpWrappers {
  import opened Common
  import opened HttpPool
  import opened HttpWorld
  import opened HttpInvariant
  import opened HttpTheorems
  import opened HttpMatching

  // ---- What the others leave alone ----

  /** Everything about handle c is as it was. */
  ghost predicate Alike(w: World, after: World, c: Client) {
    && PlaceOf(after, c) == PlaceOf(w, c) && NodeOf(after.pool, c) == NodeOf(w.pool, c)
    && LeaseOf(after.leases, c) == LeaseOf(w.leases, c) && Counts(after.log, c) == Counts(w.log, c)
  }

  ghost predicate InTransit(w: World, c: Client) {
    c in w.at && w.at[c] != Pooled
  }

  lemma ShedLeavesAlone(w: World, cfg: Config, pool: seq<Node>, dropped: seq<Client>, c: Client)
    requires Inv(w, cfg) && Shrunk(w.pool, pool, dropped) && InTransit(w, c)
    ensures Alike(w, Shed(w, pool, dropped), c)
  {
    hide Inv, Counts, Shrunk, NodeOf;
    ShedSparesOthers(w, cfg, pool, dropped, c);
    DestroysCount(w.log, dropped, c);
  }

  lemma ReapLeavesAlone(w: World, cfg: Config, c: Client)
    requires Inv(w, cfg) && InTransit(w, c)
    ensures Inv(ReapNow(w, cfg.timeout), cfg) && Alike(w, ReapNow(w, cfg.timeout), c)
  {
    hide Inv, Shrunk, Reaped, ReapedClients;
    ReapNowKeeps(w, cfg);
    ShedLeavesAlone(w, cfg, ReapNow(w, cfg.timeout).pool, ReapedClients(w.pool, TickOf(w), cfg.timeout), c);
  }

  lemma TakeLeavesAlone(w: World, cfg: Config, target: Endpoint, healthy: bool, c: Client)
    requires Inv(w, cfg) && InTransit(w, c)
    ensures Alike(w, InitTakeStep(w, cfg, target, healthy), c)
  {
    hide HandleOk, ReapNow, Matches, FindIdle, Lawful, Live;
    ReapLeavesAlone(w, cfg, c);
    var r := ReapNow(w, cfg.timeout);
    if FindIdle(r.pool, target).Some? {
      var i := FindIdle(r.pool, target).value;
      NodeAt(r.pool, i);
      IdleNodePooled(r, cfg, i);
      if healthy {
        TakeKeeps(r, cfg, i);
      } else {
        RemoveShrinks(r.pool, i);
        ShedLeavesAlone(r, cfg, Without(r.pool, i), [r.pool[i].client], c);
      }
    }
  }

  lemma IdleNodePooled(r: World, cfg: Config, i: nat)
    requires Inv(r, cfg) && i < |r.pool| && Idle(r.pool[i])
    ensures PlaceOf(r, r.pool[i].client) == Some(Pooled)
  {
    NodeAt(r.pool, i);
    assert HandleOk(r, r.pool[i].client);
  }

  lemma LeaveLeavesAlone(w: World, cfg: Config, d: Client, ep: Option<Endpoint>, alloc: bool, c: Client)
    requires Inv(w, cfg) && InTransit(w, c) && PlaceOf(w, d) == Some(Leaving) && d != c
    ensures Alike(w, LeaveStep(w, cfg, d, ep, alloc), c)
  {
    hide Inv, ReapNow, MakeRoom, Counts;
    if ep.Some? {
      var room := ShedForRoom(w, cfg, d);
      ReapLeavesAlone(w, cfg, c);
      var r := ReapNow(w, cfg.timeout);
      ShedLeavesAlone(r, cfg, room.pool, room.evicted, c);
      var s := Shed(r, room.pool, room.evicted);
      if room.ok && alloc {
        PoolKeeps(s, cfg, d, ep.value);
      }
    }
  }

  /** The eviction before a handle d goes into the pool. */
  lemma ShedForRoom(w: World, cfg: Config, d: Client) returns (room: Room)
    requires Inv(w, cfg) && PlaceOf(w, d) == Some(Leaving)
    ensures room == MakeRoom(ReapNow(w, cfg.timeout).pool, cfg.maxPool)
    ensures Shrunk(ReapNow(w, cfg.timeout).pool, room.pool, room.evicted) && (room.ok ==> |room.pool| < cfg.maxPool)
    ensures var s := Shed(ReapNow(w, cfg.timeout), room.pool, room.evicted);
      Inv(s, cfg) && PlaceOf(s, d) == Some(Leaving)
  {
    hide ReapNow, MakeRoom, Lawful, Live, Counts;
    ReapLeavesAlone(w, cfg, d);
    var r := ReapNow(w, cfg.timeout);
    TicksFit(r, cfg);
    MakeRoomShrinks(r.pool, cfg.maxPool);
    room := MakeRoom(r.pool, cfg.maxPool);
    ShedKeeps(r, cfg, room.pool, room.evicted);
    ShedLeavesAlone(r, cfg, room.pool, room.evicted, d);
  }

  lemma OthersLeaveAlone(w: World, cfg: Config, step: Step, c: Client)
    requires Inv(w, cfg) && InTransit(w, c) && Subject(step) != Some(c)
    ensures Alike(w, Apply(w, cfg, step), c)
  {
    hide Inv, ReapNow, InitTakeStep, DiscardStep, TrackStep, PerformStep, DecideStep, CleanupStep, LeaveStep, Counts;
    match step
    case Tick(ticks) =>
    case ReapTimer => ReapLeavesAlone(w, cfg, c);
    case InitBypass(d) => BornKeeps(w, cfg, d, Held);
    case InitTake(target, healthy) => TakeLeavesAlone(w, cfg, target, healthy, c);
    case UrlSet(d, ok) =>
    case Discard(d) => if PlaceOf(w, d) == Some(Discarding) { DiscardKeeps(w, cfg, d); }
    case InitNew(d) => BornKeeps(w, cfg, d, Fresh);
    case Track(d, alloc) => if PlaceOf(w, d) == Some(Fresh) { TrackKeeps(w, cfg, d, alloc); }
    case Perform(d) => if PlaceOf(w, d) == Some(Held) { PerformKeeps(w, cfg, d); }
    case Outcome(d, ok) =>
    case Decide(d) => if PlaceOf(w, d) == Some(Failed) { DecideKeeps(w, cfg, d); }
    case RetryDone(d) =>
    case Cleanup(d, persistent) => if PlaceOf(w, d) == Some(Held) { CleanupKeeps(w, cfg, d, persistent); }
    case Leave(d, ep, alloc) => if PlaceOf(w, d) == Some(Leaving) { LeaveLeavesAlone(w, cfg, d, ep, alloc, c); }
    case Destroy(d) => if PlaceOf(w, d) == Some(Destroying) { GoneKeeps(w, cfg, d); }
  }

  /** Steps of anyone but the task that works on c. */
  ghost predicate Others(steps: seq<Step>, c: Client) {
    forall i | 0 <= i < |steps| :: Subject(steps[i]) != Some(c)
  }

  lemma {:induction false} Meanwhile(w: World, cfg: Config, steps: seq<Step>, c: Client)
    requires Inv(w, cfg) && InTransit(w, c) && Others(steps, c)
    ensures Inv(Run(w, cfg, steps), cfg) && Alike(w, Run(w, cfg, steps), c)
  {
    hide Inv, Apply, Counts;
    if steps != [] {
      var n := |steps| - 1;
      Meanwhile(w, cfg, steps[..n], c);
      ApplyKeeps(Run(w, cfg, steps[..n]), cfg, steps[n]);
      OthersLeaveAlone(Run(w, cfg, steps[..n]), cfg, steps[n], c);
    }
  }

  // ---- perform ----

  lemma PerformIs(w: World, cfg: Config, c: Client)
    requires Inv(w, cfg) && PlaceOf(w, c) == Some(Held)
    ensures var after := Apply(w, cfg, Perform(c));
      && Inv(after, cfg) && PlaceOf(after, c) == Some(Attempting) && NodeOf(after.pool, c) == NodeOf(w.pool, c)
      && Counts(after.log, c) == Counts(w.log, c).(app := Counts(w.log, c).app + 1, runs := Counts(w.log, c).runs + 1)
  {
    PerformKeeps(w, cfg, c);
    assert w.log + [AppPerform(c), RealPerform(c)] == (w.log + [AppPerform(c)]) + [RealPerform(c)];
    Snoc(w.log, AppPerform(c));
    Snoc(w.log + [AppPerform(c)], RealPerform(c));
  }

  lemma DecideIs(w: World, cfg: Config, c: Client)
    requires Inv(w, cfg) && PlaceOf(w, c) == Some(Failed)
    ensures var after := Apply(w, cfg, Decide(c));
      && Inv(after, cfg) && !Armed(after, c)
      && PlaceOf(after, c) == Some(if Armed(w, c) then Retrying else Held)
      && Counts(after.log, c)
         == if Armed(w, c) then Counts(w.log, c).(runs := Counts(w.log, c).runs + 1) else Counts(w.log, c)
  {
    hide Inv, Counts;
    DecideKeeps(w, cfg, c);
    if !Armed(w, c) {
      DecideNeverArms(w, cfg, c, c);
    }
    RealPerformReads(w.log, c);
    if FindNode(w.pool, c).Some? {
      Disarmed(w, cfg, c);
    }
  }

  lemma Disarmed(w: World, cfg: Config, c: Client)
    requires Inv(w, cfg) && FindNode(w.pool, c).Some?
    ensures var i := FindNode(w.pool, c).value;
      NodeOf(w.pool[i := w.pool[i].(reused := false)], c) == Some(w.pool[i].(reused := false))
  {
    var i := FindNode(w.pool, c).value;
    NodeUpdated(w.pool, i, w.pool[i].(reused := false), c);
  }

  lemma OutcomeIs(w: World, cfg: Config, c: Client, ok: bool)
    requires Inv(w, cfg) && PlaceOf(w, c) == Some(Attempting)
    ensures var after := Apply(w, cfg, Outcome(c, ok));
      && Inv(after, cfg) && PlaceOf(after, c) == Some(if ok then Held else Failed)
      && after.pool == w.pool && after.log == w.log
  {
    hide Inv;
    ApplyKeeps(w, cfg, Outcome(c, ok));
  }

  lemma RetryIs(w: World, cfg: Config, c: Client)
    requires PlaceOf(w, c) == Some(Retrying)
    ensures var after := Apply(w, cfg, RetryDone(c));
      PlaceOf(after, c) == Some(Held) && after.pool == w.pool && after.log == w.log
  {
  }

  /**
   A whole perform, others at work between its regions: the request really runs once, and a second time
   exactly when it failed on a connection still armed by its pool hit; either way the handle ends with
   the application.
   */
  lemma WholePerform(w: World, cfg: Config, c: Client, ok: bool, t1: seq<Step>, t2: seq<Step>, t3: seq<Step>)
    requires Inv(w, cfg) && PlaceOf(w, c) == Some(Held) && Others(t1 + t2 + t3, c)
    ensures var before := Counts(w.log, c);
      var tried := Apply(Run(Apply(w, cfg, Perform(c)), cfg, t1), cfg, Outcome(c, ok));
      var decided := Apply(Run(tried, cfg, t2), cfg, Decide(c));
      var retried := Apply(Run(decided, cfg, t3), cfg, RetryDone(c));
      if ok then
        && PlaceOf(tried, c) == Some(Held) && Armed(tried, c) == Armed(w, c)
        && Counts(tried.log, c) == before.(app := before.app + 1, runs := before.runs + 1)
      else if !Armed(w, c) then
        && PlaceOf(decided, c) == Some(Held) && !Armed(decided, c)
        && Counts(decided.log, c) == before.(app := before.app + 1, runs := before.runs + 1)
      else
        && PlaceOf(decided, c) == Some(Retrying)
        && PlaceOf(retried, c) == Some(Held) && !Armed(retried, c)
        && Counts(retried.log, c) == before.(app := before.app + 1, runs := before.runs + 2)
  {
    hide Inv, Counts, Apply, Run, NodeOf, Others;
    OthersSplit(t1, t2, t3, c);
    PerformIs(w, cfg, c);
    var a := Apply(w, cfg, Perform(c));
    Meanwhile(a, cfg, t1, c);
    OutcomeIs(Run(a, cfg, t1), cfg, c, ok);
    var tried := Apply(Run(a, cfg, t1), cfg, Outcome(c, ok));
    if !ok {
      Meanwhile(tried, cfg, t2, c);
      DecideIs(Run(tried, cfg, t2), cfg, c);
      var decided := Apply(Run(tried, cfg, t2), cfg, Decide(c));
      Meanwhile(decided, cfg, t3, c);
      if Armed(w, c) {
        RetryIs(Run(decided, cfg, t3), cfg, c);
      }
    }
  }

  lemma OthersSplit(t1: seq<Step>, t2: seq<Step>, t3: seq<Step>, c: Client)
    requires Others(t1 + t2 + t3, c)
    ensures Others(t1, c) && Others(t2, c) && Others(t3, c)
  {
    var all := t1 + t2 + t3;
    forall i | 0 <= i < |t1| ensures Subject(t1[i]) != Some(c) { assert all[i] == t1[i]; }
    forall i | 0 <= i < |t2| ensures Subject(t2[i]) != Some(c) { assert all[|t1| + i] == t2[i]; }
    forall i | 0 <= i < |t3| ensures Subject(t3[i]) != Some(c) { assert all[|t1| + |t2| + i] == t3[i]; }
  }

  // ---- cleanup ----

  ghost predicate Dead(w: World, c: Client) {
    c !in w.at && c !in Live(w.log) && NodeOf(w.pool, c).None? && LeaseOf(w.leases, c).None?
  }

  lemma CleanupIs(w: World, cfg: Config, c: Client, persistent: bool)
    requires Inv(w, cfg) && PlaceOf(w, c) == Some(Held)
    ensures var after := Apply(w, cfg, Cleanup(c, persistent));
      && Inv(after, cfg) && LeaseOf(after.leases, c).None?
      && PlaceOf(after, c) == Some(
           if !persistent then Destroying
           else if NodeOf(w.pool, c).Some? then Pooled
           else if LeaseOf(w.leases, c).Some? && Counts(w.log, c).app > 0 then Leaving
           else Destroying)
  {
    CleanupKeeps(w, cfg, c, persistent);
    DropLeaseReads(w.leases, c);
    assert HandleOk(w, c);
  }

  lemma LeaveIs(w: World, cfg: Config, c: Client, ep: Option<Endpoint>, alloc: bool)
    requires Inv(w, cfg) && PlaceOf(w, c) == Some(Leaving)
    ensures var after := Apply(w, cfg, Leave(c, ep, alloc));
      Inv(after, cfg) && PlaceOf(after, c) == Some(if ep.Some? && alloc && HasRoom(w, cfg) then Pooled else Destroying)
  {
    hide Inv, ReapNow, MakeRoom;
    LeaveKeeps(w, cfg, c, ep, alloc);
  }

  /** After a reap the pool is below its limit, or eviction gets it there. */
  ghost predicate HasRoom(w: World, cfg: Config) {
    MakeRoom(ReapNow(w, cfg.timeout).pool, cfg.maxPool).ok
  }

  lemma DestroyIs(w: World, cfg: Config, c: Client)
    requires Inv(w, cfg) && PlaceOf(w, c) == Some(Destroying)
    ensures Dead(Apply(w, cfg, Destroy(c)), c)
  {
    GoneKeeps(w, cfg, c);
    Snoc(w.log, Destroyed(c));
    assert HandleOk(w, c);
  }

  /**
   A whole cleanup, others at work between its regions: the handle goes back idle when the connection
   persists and it was in the pool already, or was performed on, its endpoint can be read, its node
   allocated and there is room by then; otherwise it is dead at the end.
   */
  lemma WholeCleanup(w: World, cfg: Config, c: Client, persistent: bool, ep: Option<Endpoint>, alloc: bool,
                     t1: seq<Step>, t2: seq<Step>)
    requires Inv(w, cfg) && PlaceOf(w, c) == Some(Held) && Others(t1 + t2, c)
    ensures var cleaned := Apply(w, cfg, Cleanup(c, persistent));
      var left := Apply(Run(cleaned, cfg, t1), cfg, Leave(c, ep, alloc));
      if persistent && NodeOf(w.pool, c).Some? then PlaceOf(cleaned, c) == Some(Pooled)
      else if !persistent || LeaseOf(w.leases, c).None? || Counts(w.log, c).app == 0 then
        Dead(Apply(Run(cleaned, cfg, t1), cfg, Destroy(c)), c)
      else if ep.Some? && alloc && HasRoom(Run(cleaned, cfg, t1), cfg) then PlaceOf(left, c) == Some(Pooled)
      else Dead(Apply(Run(left, cfg, t2), cfg, Destroy(c)), c)
  {
    hide Inv, Counts, Apply, HasRoom, Dead;
    assert t1 + t2 + [] == t1 + t2;
    OthersSplit(t1, t2, [], c);
    CleanupIs(w, cfg, c, persistent);
    var cleaned := Apply(w, cfg, Cleanup(c, persistent));
    if cleaned.at[c] != Pooled {
      Meanwhile(cleaned, cfg, t1, c);
      if cleaned.at[c] == Destroying {
        DestroyIs(Run(cleaned, cfg, t1), cfg, c);
      } else {
        LeaveIs(Run(cleaned, cfg, t1), cfg, c, ep, alloc);
        var left := Apply(Run(cleaned, cfg, t1), cfg, Leave(c, ep, alloc));
        if left.at[c] == Destroying {
          Meanwhile(left, cfg, t2, c);
          DestroyIs(Run(left, cfg, t2), cfg, c);
        }
      }
    }
  }

  // ---- init ----

  lemma TakeIs(w: World, cfg: Config, target: Endpoint, healthy: bool, c: Client)
    requires Inv(w, cfg) && PlaceOf(w, c) == Some(Pooled)
    ensures var after := Apply(w, cfg, InitTake(target, healthy));
      PlaceOf(after, c) == Some(Taken) ==>
        Inv(after, cfg) && Armed(after, c) && Counts(after.log, c) == Tally(true, 0, 0)
        && Matches(target, NodeOf(after.pool, c).value.endpoint)
  {
    hide HandleOk, ReapNow, Matches, Lawful, Live;
    InitTakeKeeps(w, cfg, target, healthy);
    ReapNowKeeps(w, cfg);
    var r := ReapNow(w, cfg.timeout);
    TakenOnlyIf(w, cfg, c);
    if FindIdle(r.pool, target).Some? && healthy {
      var i := FindIdle(r.pool, target).value;
      var n := r.pool[i];
      Snoc(r.log, LeaseBegan(n.client, true));
      NodeUpdated(r.pool, i, TakenNode(n, TickOf(r)), c);
    }
  }

  /** The reap before a take hands nothing out. */
  lemma TakenOnlyIf(w: World, cfg: Config, c: Client)
    requires Inv(w, cfg) && PlaceOf(w, c) == Some(Pooled)
    ensures PlaceOf(ReapNow(w, cfg.timeout), c) in {None, Some(Pooled)}
  {
    hide Inv, Reaped, ReapedClients;
    ReapNowKeeps(w, cfg);
  }

  lemma DiscardIs(w: World, cfg: Config, c: Client)
    requires Inv(w, cfg) && PlaceOf(w, c) == Some(Discarding)
    ensures Dead(Apply(w, cfg, Discard(c)), c)
  {
    DiscardKeeps(w, cfg, c);
    Snoc(w.log, Destroyed(c));
    assert HandleOk(w, c);
    NodeRemoved(w.pool, FindNode(w.pool, c).value);
  }

  /**
   A whole init that hits the pooled handle c, others at work between its regions: c is handed out for a
   new lease, armed and for a matching endpoint, or is dead when its url could not be set.
   */
  lemma WholeInitHit(w: World, cfg: Config, target: Endpoint, healthy: bool, c: Client, ok: bool,
                     t1: seq<Step>, t2: seq<Step>)
    requires Inv(w, cfg) && PlaceOf(w, c) == Some(Pooled) && Others(t1 + t2, c)
    requires PlaceOf(Apply(w, cfg, InitTake(target, healthy)), c) == Some(Taken)
    ensures var aimed := Apply(Run(Apply(w, cfg, InitTake(target, healthy)), cfg, t1), cfg, UrlSet(c, ok));
      if ok then
        && PlaceOf(aimed, c) == Some(Held) && Armed(aimed, c) && Counts(aimed.log, c) == Tally(true, 0, 0)
        && SameServer(target, NodeOf(aimed.pool, c).value.endpoint)
      else Dead(Apply(Run(aimed, cfg, t2), cfg, Discard(c)), c)
  {
    hide Inv, Counts, Dead, InitTakeStep, DiscardStep, Matches, SameServer;
    assert t1 + t2 + [] == t1 + t2;
    OthersSplit(t1, t2, [], c);
    TakeIs(w, cfg, target, healthy, c);
    MatchesIs(target, NodeOf(Apply(w, cfg, InitTake(target, healthy)).pool, c).value.endpoint);
    var a := Apply(w, cfg, InitTake(target, healthy));
    Meanwhile(a, cfg, t1, c);
    var aimed := Apply(Run(a, cfg, t1), cfg, UrlSet(c, ok));
    ApplyKeeps(Run(a, cfg, t1), cfg, UrlSet(c, ok));
    if !ok {
      Meanwhile(aimed, cfg, t2, c);
      DiscardIs(Run(aimed, cfg, t2), cfg, c);
    }
  }

  lemma BornIs(w: World, cfg: Config, c: Client)
    requires Inv(w, cfg) && c !in w.at
    ensures var after := Apply(w, cfg, InitNew(c));
      && Inv(after, cfg) && PlaceOf(after, c) == Some(Fresh) && Counts(after.log, c) == Tally(false, 0, 0)
      && NodeOf(after.pool, c).None? && LeaseOf(after.leases, c).None?
  {
    BornKeeps(w, cfg, c, Fresh);
    assert HandleOk(w, c);
    assert w.log + [Created(c), LeaseBegan(c, false)] == (w.log + [Created(c)]) + [LeaseBegan(c, false)];
    Snoc(w.log + [Created(c)], LeaseBegan(c, false));
  }

  lemma TrackIs(w: World, cfg: Config, c: Client, alloc: bool)
    requires Inv(w, cfg) && PlaceOf(w, c) == Some(Fresh) && LeaseOf(w.leases, c).None?
    ensures var after := Apply(w, cfg, Track(c, alloc));
      && PlaceOf(after, c) == Some(Held) && after.pool == w.pool && after.log == w.log
      && LeaseOf(after.leases, c) == if alloc then Some(Lease(c, false)) else None
  {
    LeaseAppended(w.leases, Lease(c, false), c);
  }

  /** A whole init that makes a new handle: it is handed out outside the pool, for a lease that is tracked if memory allows. */
  lemma WholeInitNew(w: World, cfg: Config, c: Client, alloc: bool, t1: seq<Step>)
    requires Inv(w, cfg) && c !in w.at && Others(t1, c)
    ensures var after := Apply(Run(Apply(w, cfg, InitNew(c)), cfg, t1), cfg, Track(c, alloc));
      && PlaceOf(after, c) == Some(Held) && NodeOf(after.pool, c).None?
      && Counts(after.log, c) == Tally(false, 0, 0)
      && LeaseOf(after.leases, c) == if alloc then Some(Lease(c, false)) else None
  {
    hide Inv, Counts, Apply;
    BornIs(w, cfg, c);
    var a := Apply(w, cfg, InitNew(c));
    Meanwhile(a, cfg, t1, c);
    TrackIs(Run(a, cfg, t1), cfg, c, alloc);
  }
}
