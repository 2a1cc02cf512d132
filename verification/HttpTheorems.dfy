/**
 Consequences over whole runs of the reuse layer: conservation of handles, exclusive use, one
 destruction per creation, at most one retry per pool hit, and how old an idle connection gets.
 Main results: PoolConservation, OthersCannotTouch, DestroyedOnce, RetryAtMostOnce, IdleAgeBounded.
 */
module HttpTheorems {
  import opened Common
  import opened HttpPool
  import opened HttpWorld
  import opened HttpInvariant

  ghost predicate Reachable(w: World, cfg: Config) {
    exists steps :: Run(EMPTY, cfg, steps) == w
  }

  lemma InvariantAlways(w: World, cfg: Config)
    requires Reachable(w, cfg)
    ensures Inv(w, cfg)
  {
    var steps :| Run(EMPTY, cfg, steps) == w;
    RunKeeps(cfg, steps);
  }

  // ---- Conservation ----

  /**
   In every reachable state: the live handles are those with a place in the ledger; a handle is
   idle in the pool exactly when its place is Pooled; a leased pool node belongs to a handle
   someone is using; a handle has at most one pool node, and none while it has a lease entry; the
   pool is within its limit.
   */
  lemma PoolConservation(w: World, cfg: Config)
    requires Reachable(w, cfg)
    ensures w.at.Keys == Live(w.log)
    ensures forall i, j | 0 <= i < j < |w.pool| :: w.pool[i].client != w.pool[j].client
    ensures forall i, j | 0 <= i < |w.pool| && 0 <= j < |w.leases| :: w.pool[i].client != w.leases[j].client
    ensures |w.pool| <= cfg.maxPool
    ensures forall i | 0 <= i < |w.pool| ::
              && w.pool[i].client in w.at
              && (if w.pool[i].leased then InUse(w.at[w.pool[i].client]) else w.at[w.pool[i].client] == Pooled)
    ensures forall c | c in w.at && w.at[c] == Pooled ::
              exists i | 0 <= i < |w.pool| :: w.pool[i].client == c && !w.pool[i].leased
  {
    InvariantAlways(w, cfg);
    forall i | 0 <= i < |w.pool|
      ensures w.pool[i].client in w.at
      ensures if w.pool[i].leased then InUse(w.at[w.pool[i].client]) else w.at[w.pool[i].client] == Pooled
      ensures LeaseOf(w.leases, w.pool[i].client).None?
    {
      NodeAt(w.pool, i);
      assert HandleOk(w, w.pool[i].client);
    }
    forall c | c in w.at && w.at[c] == Pooled
      ensures exists i | 0 <= i < |w.pool| :: w.pool[i].client == c && !w.pool[i].leased
    {
      assert HandleOk(w, c);
      var i := FindNode(w.pool, c).value;
    }
  }

  /** The handle a step is about, if it is about one. */
  function Subject(step: Step): Option<Client> {
    match step
    case UrlSet(c, _) => Some(c)
    case Discard(c) => Some(c)
    case Track(c, _) => Some(c)
    case Perform(c) => Some(c)
    case Outcome(c, _) => Some(c)
    case Decide(c) => Some(c)
    case RetryDone(c) => Some(c)
    case Cleanup(c, _) => Some(c)
    case Leave(c, _, _) => Some(c)
    case Destroy(c) => Some(c)
    case _ => None
  }

  lemma ShedSparesOthers(w: World, cfg: Config, pool: seq<Node>, dropped: seq<Client>, c: Client)
    requires Inv(w, cfg) && Shrunk(w.pool, pool, dropped) && c in w.at && w.at[c] != Pooled
    ensures PlaceOf(Shed(w, pool, dropped), c) == Some(w.at[c])
    ensures NodeOf(pool, c) == NodeOf(w.pool, c)
  {
    ShedKeeps(w, cfg, pool, dropped);
    assert c in dropped ==> PlaceOf(w, c) == Some(Pooled);
  }

  /**
   A handle that is not idle in the pool stays where it is until a step is taken about that very
   handle: neither the reaper, nor eviction, nor anyone else's init or cleanup can touch it.
   */
  lemma OthersCannotTouch(w: World, cfg: Config, step: Step, c: Client)
    requires Inv(w, cfg) && c in w.at && w.at[c] != Pooled && Subject(step) != Some(c)
    ensures PlaceOf(Apply(w, cfg, step), c) == Some(w.at[c])
  {
    hide Inv, ReapNow, InitTakeStep, LeaveStep;
    match step
    case ReapTimer => ReapSpares(w, cfg, c);
    case InitTake(target, healthy) => TakeSpares(w, cfg, target, healthy, c);
    case Leave(d, ep, alloc) => LeaveSpares(w, cfg, d, ep, alloc, c);
    case _ =>
  }

  lemma ReapSpares(w: World, cfg: Config, c: Client)
    requires Inv(w, cfg) && c in w.at && w.at[c] != Pooled
    ensures PlaceOf(ReapNow(w, cfg.timeout), c) == Some(w.at[c])
  {
    hide Lawful, Live, Counts, Reaped, ReapedClients;
    ReapNowKeeps(w, cfg);
    ShedSparesOthers(w, cfg, ReapNow(w, cfg.timeout).pool, ReapedClients(w.pool, TickOf(w), cfg.timeout), c);
  }

  lemma TakeSpares(w: World, cfg: Config, target: Endpoint, healthy: bool, c: Client)
    requires Inv(w, cfg) && c in w.at && w.at[c] != Pooled
    ensures PlaceOf(InitTakeStep(w, cfg, target, healthy), c) == Some(w.at[c])
  {
    hide Lawful, Live, Counts, Matches, ReapNow;
    ReapNowKeeps(w, cfg);
    ReapSpares(w, cfg, c);
    var r := ReapNow(w, cfg.timeout);
    if FindIdle(r.pool, target).Some? {
      var i := FindIdle(r.pool, target).value;
      NodeAt(r.pool, i);
      assert HandleOk(r, r.pool[i].client);
      RemoveShrinks(r.pool, i);
      ShedSparesOthers(r, cfg, Without(r.pool, i), [r.pool[i].client], c);
    }
  }

  lemma LeaveSpares(w: World, cfg: Config, d: Client, ep: Option<Endpoint>, alloc: bool, c: Client)
    requires Inv(w, cfg) && c in w.at && w.at[c] != Pooled && c != d
    ensures PlaceOf(LeaveStep(w, cfg, d, ep, alloc), c) == Some(w.at[c])
  {
    hide Lawful, Live, Counts, MakeRoom, ReapNow;
    if ep.Some? {
      ReapNowKeeps(w, cfg);
      ReapSpares(w, cfg, c);
      var r := ReapNow(w, cfg.timeout);
      TicksFit(r, cfg);
      MakeRoomShrinks(r.pool, cfg.maxPool);
      var room := MakeRoom(r.pool, cfg.maxPool);
      ShedSparesOthers(r, cfg, room.pool, room.evicted, c);
    }
  }

  /** A handle in the application's hands is never destroyed by a step: only a perform or cleanup of it takes it away. */
  lemma HeldNeverDestroyed(w: World, cfg: Config, step: Step, c: Client)
    requires Inv(w, cfg) && PlaceOf(w, c) == Some(Held)
    ensures c in Live(Apply(w, cfg, step).log) && c in Apply(w, cfg, step).at
    ensures Apply(w, cfg, step).at[c] != Held ==> (step.Perform? || step.Cleanup?) && step.c == c
  {
    ApplyKeeps(w, cfg, step);
    if Subject(step) != Some(c) {
      OthersCannotTouch(w, cfg, step, c);
    }
  }

  // ---- The log ----

  lemma {:induction false} LiveNeedsCreation(log: seq<Event>, c: Client, from: nat)
    requires from <= |log| && c !in Live(log[..from]) && c in Live(log)
    ensures exists k | from <= k < |log| :: log[k] == Created(c)
    decreases |log|
  {
    assert log[..|log|] == log;
    if Last(log) == Created(c) {
      assert log[|log| - 1] == Created(c);
    } else {
      assert Front(log)[..from] == log[..from];
      LiveNeedsCreation(Front(log), c, from);
      var k :| from <= k < |Front(log)| && Front(log)[k] == Created(c);
      assert log[k] == Created(c);
    }
  }

  lemma {:induction false} LawfulPrefix(log: seq<Event>, n: nat)
    requires Lawful(log) && n <= |log|
    ensures Lawful(log[..n])
    decreases |log|
  {
    if n == |log| {
      assert log[..n] == log;
    } else {
      LawfulPrefix(Front(log), n);
      assert Front(log)[..n] == log[..n];
    }
  }

  /** A destroyed handle was live, so it was created at some point after any moment it was not live. */
  lemma CreatedSince(log: seq<Event>, c: Client, from: nat, j: nat)
    requires Lawful(log) && from <= j < |log| && log[j] == Destroyed(c) && c !in Live(log[..from])
    ensures exists k | from <= k < j :: log[k] == Created(c)
  {
    hide Lawful, Live;
    LiveWhenDestroyed(log, c, j);
    var upto := log[..j];
    assert upto[..from] == log[..from];
    LiveNeedsCreation(upto, c, from);
    var k :| from <= k < |upto| && upto[k] == Created(c);
    assert log[k] == Created(c);
  }

  lemma LiveWhenDestroyed(log: seq<Event>, c: Client, j: nat)
    requires Lawful(log) && j < |log| && log[j] == Destroyed(c)
    ensures c in Live(log[..j]) && c !in Live(log[..j + 1])
  {
    LawfulPrefix(log, j + 1);
    assert Front(log[..j + 1]) == log[..j] && Last(log[..j + 1]) == Destroyed(c);
  }

  /** Every destruction follows a creation of the same handle that no other destruction follows: once each. */
  lemma DestroyedOnce(w: World, cfg: Config, c: Client, j: nat)
    requires Reachable(w, cfg) && j < |w.log| && w.log[j] == Destroyed(c)
    ensures exists k | 0 <= k < j :: w.log[k] == Created(c)
    ensures forall i | 0 <= i < j && w.log[i] == Destroyed(c) :: exists k | i < k < j :: w.log[k] == Created(c)
  {
    InvariantAlways(w, cfg);
    assert w.log[..0] == [];
    CreatedSince(w.log, c, 0, j);
    forall i | 0 <= i < j && w.log[i] == Destroyed(c)
      ensures exists k | i < k < j :: w.log[k] == Created(c)
    {
      LiveWhenDestroyed(w.log, c, i);
      CreatedSince(w.log, c, i + 1, j);
    }
  }

  // ---- Retry ----

  /** Over a lease the real perform runs as often as the application asked, plus at most once after a pool hit. */
  lemma RetryAtMostOnce(w: World, cfg: Config, c: Client)
    requires Reachable(w, cfg) && c in w.at
    ensures var t := Counts(w.log, c);
      t.app <= t.runs <= t.app + (if t.hit then 1 else 0)
  {
    InvariantAlways(w, cfg);
    assert HandleOk(w, c);
  }

  /** A new handle gets into the pool only if the application performed a request on it in this lease. */
  lemma EntersPoolPerformed(w: World, cfg: Config, step: Step, c: Client)
    requires Reachable(w, cfg) && NodeOf(w.pool, c).None? && NodeOf(Apply(w, cfg, step).pool, c).Some?
    ensures step.Leave? && step.c == c && Counts(w.log, c).app > 0
  {
    InvariantAlways(w, cfg);
    assert HandleOk(w, c);
    NewNodeIsLeaving(w, cfg, step, c);
  }

  lemma NewNodeIsLeaving(w: World, cfg: Config, step: Step, c: Client)
    requires Inv(w, cfg) && NodeOf(w.pool, c).None? && NodeOf(Apply(w, cfg, step).pool, c).Some?
    ensures step.Leave? && step.c == c && PlaceOf(w, c) == Some(Leaving)
  {
    hide Inv, ReapNow, InitTakeStep, DiscardStep, DecideStep, CleanupStep, LeaveStep;
    match step
    case ReapTimer => ReapAddsNone(w, cfg, c);
    case InitTake(target, healthy) => TakeAddsNone(w, cfg, target, healthy, c);
    case Discard(d) => EndsAddNone(w, cfg, d, true, c);
    case Decide(d) => EndsAddNone(w, cfg, d, true, c);
    case Cleanup(d, persistent) => EndsAddNone(w, cfg, d, persistent, c);
    case Leave(d, ep, alloc) => LeaveAddsOwn(w, cfg, d, ep, alloc, c);
    case _ =>
  }

  lemma ReapAddsNone(w: World, cfg: Config, c: Client)
    requires Inv(w, cfg) && NodeOf(w.pool, c).None?
    ensures NodeOf(ReapNow(w, cfg.timeout).pool, c).None?
  {
    hide Lawful, Live, Counts, Reaped, ReapedClients;
    ReapNowKeeps(w, cfg);
  }

  lemma TakeAddsNone(w: World, cfg: Config, target: Endpoint, healthy: bool, c: Client)
    requires Inv(w, cfg) && NodeOf(w.pool, c).None?
    ensures NodeOf(InitTakeStep(w, cfg, target, healthy).pool, c).None?
  {
    hide Lawful, Live, Counts, Reaped, ReapedClients, Matches, ReapNow;
    ReapNowKeeps(w, cfg);
    ReapAddsNone(w, cfg, c);
    var r := ReapNow(w, cfg.timeout);
    if FindIdle(r.pool, target).Some? {
      var i := FindIdle(r.pool, target).value;
      NodeRemoved(r.pool, i);
      NodeUpdated(r.pool, i, TakenNode(r.pool[i], TickOf(r)), c);
      NodeAt(r.pool, i);
    }
  }

  lemma EndsAddNone(w: World, cfg: Config, d: Client, persistent: bool, c: Client)
    requires Inv(w, cfg) && NodeOf(w.pool, c).None?
    ensures NodeOf(DiscardStep(w, d).pool, c).None? && NodeOf(DecideStep(w, d).pool, c).None?
    ensures NodeOf(CleanupStep(w, d, persistent).pool, c).None?
  {
    hide Lawful, Live, Counts, LeaseOf, HandleOk;
    if FindNode(w.pool, d).Some? {
      var i := FindNode(w.pool, d).value;
      NodeRemoved(w.pool, i);
      NodeUpdated(w.pool, i, w.pool[i].(reused := false), c);
      NodeUpdated(w.pool, i, ReturnedNode(w.pool[i], TickOf(w)), c);
    }
  }

  lemma LeaveAddsOwn(w: World, cfg: Config, d: Client, ep: Option<Endpoint>, alloc: bool, c: Client)
    requires Inv(w, cfg) && NodeOf(w.pool, c).None? && PlaceOf(w, d) == Some(Leaving)
    requires NodeOf(LeaveStep(w, cfg, d, ep, alloc).pool, c).Some?
    ensures d == c
  {
    hide Lawful, Live, Counts, MakeRoom, Reaped, ReapedClients;
    if ep.Some? {
      ReapNowKeeps(w, cfg);
      var r := ReapNow(w, cfg.timeout);
      TicksFit(r, cfg);
      MakeRoomShrinks(r.pool, cfg.maxPool);
      var room := MakeRoom(r.pool, cfg.maxPool);
      assert HandleOk(w, d) && NodeOf(room.pool, d).None?;
      NodeAppended(room.pool, NewIdle(d, ep.value, TickOf(w)), c);
    }
  }

  ghost predicate Armed(w: World, c: Client) {
    NodeOf(w.pool, c).Some? && NodeOf(w.pool, c).value.reused
  }

  lemma ReapNeverArms(w: World, cfg: Config, c: Client)
    requires Inv(w, cfg) && !Armed(w, c)
    ensures !Armed(ReapNow(w, cfg.timeout), c)
  {
    ReapNowKeeps(w, cfg);
  }

  /** Only a new pool hit on the handle arms its retry again. */
  lemma OnlyAHitRearms(w: World, cfg: Config, step: Step, c: Client)
    requires Inv(w, cfg) && !Armed(w, c) && Armed(Apply(w, cfg, step), c)
    ensures step.InitTake? && PlaceOf(w, c) == Some(Pooled)
    ensures var log := Apply(w, cfg, step).log; log != [] && Last(log) == LeaseBegan(c, true)
  {
    hide Lawful, Live, Counts, InitTakeStep, CleanupStep, LeaveStep, DecideStep, LeaseOf;
    assert HandleOk(w, c);
    match step
    case Tick(ticks) =>
    case ReapTimer => ReapNeverArms(w, cfg, c);
    case InitBypass(d) =>
    case InitTake(target, healthy) => TakeArms(w, cfg, target, healthy, c);
    case UrlSet(d, ok) =>
    case Discard(d) =>
      if PlaceOf(w, d) == Some(Discarding) {
        assert HandleOk(w, d);
        NodeRemoved(w.pool, FindNode(w.pool, d).value);
      }
    case InitNew(d) =>
    case Track(d, alloc) =>
    case Perform(d) =>
    case Outcome(d, ok) =>
    case Decide(d) => DecideNeverArms(w, cfg, d, c);
    case RetryDone(d) =>
    case Cleanup(d, persistent) => CleanupNeverArms(w, cfg, d, persistent, c);
    case Leave(d, ep, alloc) => LeaveNeverArms(w, cfg, d, ep, alloc, c);
    case Destroy(d) =>
  }

  lemma TakeArms(w: World, cfg: Config, target: Endpoint, healthy: bool, c: Client)
    requires Inv(w, cfg) && !Armed(w, c) && Armed(InitTakeStep(w, cfg, target, healthy), c)
    ensures PlaceOf(w, c) == Some(Pooled)
    ensures var log := InitTakeStep(w, cfg, target, healthy).log; log != [] && Last(log) == LeaseBegan(c, true)
  {
    ReapNowKeeps(w, cfg);
    var r := ReapNow(w, cfg.timeout);
    match FindIdle(r.pool, target)
    case None =>
    case Some(i) =>
      var n := r.pool[i];
      NodeAt(r.pool, i);
      NodeRemoved(r.pool, i);
      NodeUpdated(r.pool, i, TakenNode(n, TickOf(r)), c);
      assert n.client == c;
      assert NodeOf(w.pool, c) == NodeOf(r.pool, c);
      assert HandleOk(w, c);
  }

  lemma DecideNeverArms(w: World, cfg: Config, d: Client, c: Client)
    requires Inv(w, cfg) && !Armed(w, c)
    ensures PlaceOf(w, d) == Some(Failed) ==> !Armed(DecideStep(w, d), c)
  {
    match FindNode(w.pool, d)
    case None =>
    case Some(i) => NodeUpdated(w.pool, i, w.pool[i].(reused := false), c);
  }

  lemma CleanupNeverArms(w: World, cfg: Config, d: Client, persistent: bool, c: Client)
    requires Inv(w, cfg) && !Armed(w, c)
    ensures PlaceOf(w, d) == Some(Held) ==> !Armed(CleanupStep(w, d, persistent), c)
  {
    match FindNode(w.pool, d)
    case None =>
    case Some(i) =>
      NodeRemoved(w.pool, i);
      NodeUpdated(w.pool, i, ReturnedNode(w.pool[i], TickOf(w)), c);
  }

  lemma LeaveNeverArms(w: World, cfg: Config, d: Client, ep: Option<Endpoint>, alloc: bool, c: Client)
    requires Inv(w, cfg) && !Armed(w, c)
    ensures PlaceOf(w, d) == Some(Leaving) ==> !Armed(LeaveStep(w, cfg, d, ep, alloc), c)
  {
    hide Lawful, Live, Counts, MakeRoom, Reaped, ReapedClients;
    if PlaceOf(w, d) == Some(Leaving) && ep.Some? {
      ReapNowKeeps(w, cfg);
      var r := ReapNow(w, cfg.timeout);
      TicksFit(r, cfg);
      MakeRoomShrinks(r.pool, cfg.maxPool);
      var room := MakeRoom(r.pool, cfg.maxPool);
      assert HandleOk(w, d);
      assert NodeOf(room.pool, d).None?;
      NodeAppended(room.pool, NewIdle(d, ep.value, TickOf(w)), c);
    }
  }

  // ---- Idle age ----

  ghost predicate IdleAt(w: World, c: Client) {
    NodeOf(w.pool, c).Some? && Idle(NodeOf(w.pool, c).value)
  }

  /** True age of an idle handle. */
  ghost function Age(w: World, c: Client): int {
    if c in w.stamps then w.now - w.stamps[c] else 0
  }

  /** Reaping keeps the order: it acts on each stretch of the list by itself. */
  lemma ReapedConcat(a: seq<Node>, b: seq<Node>, tick: nat, timeout: nat)
    requires tick < WORD && WellTicked(a + b) && WellTicked(a) && WellTicked(b)
    ensures Reaped(a + b, tick, timeout) == Reaped(a, tick, timeout) + Reaped(b, tick, timeout)
    ensures ReapedClients(a + b, tick, timeout) == ReapedClients(a, tick, timeout) + ReapedClients(b, tick, timeout)
  {
    KeptConcat(a, b, tick, timeout);
    GoneConcat(a, b, tick, timeout);
  }

  lemma {:induction false} KeptConcat(a: seq<Node>, b: seq<Node>, tick: nat, timeout: nat)
    requires tick < WORD && WellTicked(a + b) && WellTicked(a) && WellTicked(b)
    ensures Reaped(a + b, tick, timeout) == Reaped(a, tick, timeout) + Reaped(b, tick, timeout)
  {
    if a == [] {
      assert a + b == b;
    } else {
      hide Reaped, Keeps;
      SplitFirst(a, b);
      KeptConcat(a[1..], b, tick, timeout);
      ReapedAt(a, 0, tick, timeout);
      ReapedAt(a + b, 0, tick, timeout);
    }
  }

  lemma {:induction false} GoneConcat(a: seq<Node>, b: seq<Node>, tick: nat, timeout: nat)
    requires tick < WORD && WellTicked(a + b) && WellTicked(a) && WellTicked(b)
    ensures ReapedClients(a + b, tick, timeout) == ReapedClients(a, tick, timeout) + ReapedClients(b, tick, timeout)
  {
    if a == [] {
      assert a + b == b;
    } else {
      hide ReapedClients, Keeps;
      SplitFirst(a, b);
      GoneConcat(a[1..], b, tick, timeout);
      ReapedAt(a, 0, tick, timeout);
      ReapedAt(a + b, 0, tick, timeout);
    }
  }

  lemma SplitFirst(a: seq<Node>, b: seq<Node>)
    requires a != [] && WellTicked(a) && WellTicked(b)
    ensures a[0..] == a && (a + b)[0..] == a + b && (a + b)[0] == a[0]
    ensures (a + b)[1..] == a[1..] + b && WellTicked(a[1..]) && WellTicked(a[1..] + b)
  {
  }

  /** While true ages stay below 2^32, a reap removes exactly the idle handles whose true age has reached the timeout. */
  lemma ReapIsExact(w: World, cfg: Config, c: Client)
    requires Inv(w, cfg) && IdleAt(w, c) && Age(w, c) < WORD
    ensures IdleAt(ReapNow(w, cfg.timeout), c) <==> Age(w, c) < cfg.timeout
    ensures !IdleAt(ReapNow(w, cfg.timeout), c) ==> NodeOf(ReapNow(w, cfg.timeout).pool, c).None?
  {
    assert HandleOk(w, c);
    ReapNowKeeps(w, cfg);
    var r := ReapNow(w, cfg.timeout);
    var n := NodeOf(w.pool, c).value;
    ElapsedIsAge(w.now, w.stamps[c]);
    ReapedHas(w.pool, TickOf(w), cfg.timeout, n);
    if n in r.pool {
      var i :| 0 <= i < |r.pool| && r.pool[i] == n;
      NodeAt(r.pool, i);
    }
  }

  /** After the last run of the reaper, or young when it ran. */
  ghost predicate Young(w: World, cfg: Config) {
    forall c: Client | IdleAt(w, c) ::
      c in w.stamps && (w.stamps[c] >= w.lastReap || w.lastReap - w.stamps[c] < cfg.timeout)
  }

  ghost predicate Timely(w: World, period: nat) {
    w.now - w.lastReap <= period
  }

  /** An idle node after a step was idle with the same stamp before, or was stamped just now. */
  ghost predicate StampKept(w: World, after: World, c: Client) {
    IdleAt(after, c) ==>
      c in after.stamps
      && (after.stamps[c] == w.now || (IdleAt(w, c) && c in w.stamps && after.stamps[c] == w.stamps[c]))
  }

  lemma StampsKept(w: World, cfg: Config, step: Step, c: Client)
    requires Inv(w, cfg)
    ensures StampKept(w, Apply(w, cfg, step), c)
  {
    hide Inv, ReapNow, InitTakeStep, DiscardStep, DecideStep, CleanupStep, LeaveStep, StampKept;
    SameStamps(w, cfg, w, c);
    match step
    case ReapTimer => ReapStamps(w, cfg, c);
    case InitTake(target, healthy) => TakeStamps(w, cfg, target, healthy, c);
    case Discard(d) => DiscardStamps(w, cfg, d, c);
    case Decide(d) => DecideStamps(w, cfg, d, c);
    case Cleanup(d, persistent) => CleanupStamps(w, cfg, d, persistent, c);
    case Leave(d, ep, alloc) => LeaveStamps(w, cfg, d, ep, alloc, c);
    case _ => SameStamps(w, cfg, Apply(w, cfg, step), c);
  }

  lemma SameStamps(w: World, cfg: Config, after: World, c: Client)
    requires Inv(w, cfg) && after.pool == w.pool && after.stamps == w.stamps
    ensures StampKept(w, after, c)
  {
    assert HandleOk(w, c);
  }

  lemma ReapStamps(w: World, cfg: Config, c: Client)
    requires Inv(w, cfg)
    ensures StampKept(w, ReapNow(w, cfg.timeout).(lastReap := w.now), c)
  {
    hide Lawful, Live, Counts, Reaped, ReapedClients;
    assert HandleOk(w, c);
    ReapNowKeeps(w, cfg);
  }

  lemma DiscardStamps(w: World, cfg: Config, d: Client, c: Client)
    requires Inv(w, cfg)
    ensures PlaceOf(w, d) == Some(Discarding) ==> StampKept(w, DiscardStep(w, d), c)
  {
    hide Lawful, Live, Counts;
    assert HandleOk(w, c);
    if PlaceOf(w, d) == Some(Discarding) {
      assert HandleOk(w, d);
      NodeRemoved(w.pool, FindNode(w.pool, d).value);
    }
  }

  lemma DecideStamps(w: World, cfg: Config, d: Client, c: Client)
    requires Inv(w, cfg)
    ensures StampKept(w, DecideStep(w, d), c)
  {
    hide Lawful, Live, Counts;
    assert HandleOk(w, c);
    match FindNode(w.pool, d)
    case None =>
    case Some(i) => NodeUpdated(w.pool, i, w.pool[i].(reused := false), c);
  }

  lemma TakeStamps(w: World, cfg: Config, target: Endpoint, healthy: bool, c: Client)
    requires Inv(w, cfg)
    ensures StampKept(w, InitTakeStep(w, cfg, target, healthy), c)
  {
    assert HandleOk(w, c);
    ReapNowKeeps(w, cfg);
    var r := ReapNow(w, cfg.timeout);
    match FindIdle(r.pool, target)
    case None =>
    case Some(i) =>
      NodeRemoved(r.pool, i);
      NodeUpdated(r.pool, i, TakenNode(r.pool[i], TickOf(r)), c);
  }

  lemma CleanupStamps(w: World, cfg: Config, d: Client, persistent: bool, c: Client)
    requires Inv(w, cfg)
    ensures PlaceOf(w, d) == Some(Held) ==> StampKept(w, CleanupStep(w, d, persistent), c)
  {
    assert HandleOk(w, c);
    match FindNode(w.pool, d)
    case None =>
    case Some(i) =>
      NodeRemoved(w.pool, i);
      NodeUpdated(w.pool, i, ReturnedNode(w.pool[i], TickOf(w)), c);
  }

  lemma LeaveStamps(w: World, cfg: Config, d: Client, ep: Option<Endpoint>, alloc: bool, c: Client)
    requires Inv(w, cfg)
    ensures PlaceOf(w, d) == Some(Leaving) ==> StampKept(w, LeaveStep(w, cfg, d, ep, alloc), c)
  {
    hide Lawful, Live, Counts, MakeRoom, Reaped, ReapedClients;
    assert HandleOk(w, c);
    if PlaceOf(w, d) == Some(Leaving) && ep.Some? {
      assert HandleOk(w, d);
      ReapNowKeeps(w, cfg);
      var r := ReapNow(w, cfg.timeout);
      TicksFit(r, cfg);
      MakeRoomShrinks(r.pool, cfg.maxPool);
      var room := MakeRoom(r.pool, cfg.maxPool);
      assert NodeOf(room.pool, d).None?;
      NodeAppended(room.pool, NewIdle(d, ep.value, TickOf(w)), c);
    }
  }

  lemma StepKeepsYoung(w: World, cfg: Config, step: Step, period: nat)
    requires Inv(w, cfg) && Young(w, cfg) && Timely(w, period) && cfg.timeout + period < WORD
    ensures Young(Apply(w, cfg, step), cfg)
  {
    var after := Apply(w, cfg, step);
    forall c: Client | IdleAt(after, c)
      ensures c in after.stamps && (after.stamps[c] >= after.lastReap || after.lastReap - after.stamps[c] < cfg.timeout)
    {
      StampsKept(w, cfg, step, c);
      if step.ReapTimer? {
        ReapNowKeeps(w, cfg);
        assert IdleAt(w, c) && Age(w, c) < WORD;
        ReapIsExact(w, cfg, c);
        assert IdleAt(ReapNow(w, cfg.timeout), c);
      } else {
        LastReapKept(w, cfg, step);
      }
    }
  }

  lemma LastReapKept(w: World, cfg: Config, step: Step)
    requires Inv(w, cfg) && !step.ReapTimer?
    ensures Apply(w, cfg, step).lastReap == w.lastReap <= w.now
  {
  }

  ghost predicate TimelyThroughout(cfg: Config, steps: seq<Step>, period: nat) {
    forall k | 0 <= k <= |steps| :: Timely(Run(EMPTY, cfg, steps[..k]), period)
  }

  /**
   If the reaper is never later than period ticks, and timeout + period fits 32 bits, then no idle
   connection ever gets older than timeout + period, however often the tick counter wraps.
   */
  lemma {:induction false} IdleAgeBounded(cfg: Config, steps: seq<Step>, period: nat, c: Client)
    requires TimelyThroughout(cfg, steps, period) && cfg.timeout + period < WORD
    ensures Young(Run(EMPTY, cfg, steps), cfg)
    ensures IdleAt(Run(EMPTY, cfg, steps), c) ==> Age(Run(EMPTY, cfg, steps), c) <= cfg.timeout + period
  {
    assert steps[..|steps|] == steps;
    RunKeeps(cfg, steps);
    if steps != [] {
      var before := steps[..|steps| - 1];
      forall k | 0 <= k <= |before| ensures Timely(Run(EMPTY, cfg, before[..k]), period) {
        assert before[..k] == steps[..k];
      }
      assert before[..|before|] == before;
      IdleAgeBounded(cfg, before, period, c);
      RunKeeps(cfg, before);
      StepKeepsYoung(Run(EMPTY, cfg, before), cfg, steps[|steps| - 1], period);
    }
    assert Timely(Run(EMPTY, cfg, steps), period);
  }
}
