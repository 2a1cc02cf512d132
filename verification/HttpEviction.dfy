/**
 Which idle handle the eviction loop destroys when the pool is full
 (components/http_reuse/esp_http_client_reuse.c, lines 444-490). The code compares raw 32-bit tick
 values and starts its search from the largest one, so it can take a recent handle after the counter
 wraps, and no handle at all when every idle one carries that largest value.
 Main results: EvictionExact, LeaveEvicts, RecentEvicted, NothingEvicted.
 */
module HttpEviction {
  import opened Common
  import opened HttpPool
  import opened HttpWorld
  import opened HttpInvariant
  import opened HttpTheorems

  /** Before the tick counter first wraps, the victim is an idle handle updated no later than any other. */
  lemma VictimIsLeastRecent(w: World, cfg: Config, c: Client)
    requires Inv(w, cfg) && w.now < MAX_TICK && IdleAt(w, c)
    ensures Oldest(w.pool).Some? && Oldest(w.pool).value < |w.pool|
    ensures var v := w.pool[Oldest(w.pool).value].client;
      IdleAt(w, v) && v in w.stamps && c in w.stamps && w.stamps[v] <= w.stamps[c]
  {
    TicksFit(w, cfg);
    ScanIs(w.pool, |w.pool|);
    assert HandleOk(w, c);
    var k := FindNode(w.pool, c).value;
    assert w.pool[k].lastUpdate == w.stamps[c] < MAX_TICK;
    var i := Oldest(w.pool).value;
    NodeAt(w.pool, i);
    assert HandleOk(w, w.pool[i].client);
  }

  lemma EpochOrder(a: nat, b: nat)
    ensures a / WORD == b / WORD ==> (a % WORD <= b % WORD <==> a <= b)
    ensures a / WORD < b / WORD && b - a < WORD ==> b % WORD < a % WORD
    ensures a <= b ==> a / WORD <= b / WORD
  {
  }

  /** An idle handle's node, by its place in the pool. */
  lemma IdleNode(w: World, cfg: Config, c: Client) returns (k: nat)
    requires Inv(w, cfg) && IdleAt(w, c)
    ensures k < |w.pool| && w.pool[k].client == c && Idle(w.pool[k])
    ensures c in w.stamps && w.stamps[c] <= w.now && w.pool[k].lastUpdate == w.stamps[c] % WORD
  {
    assert HandleOk(w, c);
    k := FindNode(w.pool, c).value;
  }

  ghost predicate LeastRecent(w: World, v: Client) {
    IdleAt(w, v) && v in w.stamps && forall c: Client | IdleAt(w, c) :: c in w.stamps && w.stamps[v] <= w.stamps[c]
  }

  /** Every idle handle was last updated in the same 2^32 ticks. */
  ghost predicate OneEpoch(w: World) {
    forall c: Client, d: Client | IdleAt(w, c) && IdleAt(w, d) ::
      c in w.stamps && d in w.stamps && w.stamps[c] / WORD == w.stamps[d] / WORD
  }

  ghost predicate ShortSpread(w: World) {
    forall c: Client, d: Client | IdleAt(w, c) && IdleAt(w, d) && c in w.stamps && d in w.stamps ::
      w.stamps[c] - w.stamps[d] < WORD
  }

  /** Some idle handle does not carry the tick value the search starts from. */
  ghost predicate Evictable(w: World) {
    exists c: Client :: IdleAt(w, c) && c in w.stamps && w.stamps[c] % WORD != MAX_TICK
  }

  /** What the loop is for: it finds a victim, and the victim is a least recently updated idle handle. */
  ghost predicate EvictsLeastRecent(w: World) {
    var i := Oldest(w.pool);
    i.Some? && i.value < |w.pool| && LeastRecent(w, w.pool[i.value].client)
  }

  lemma VictimExists(w: World, cfg: Config)
    requires Inv(w, cfg)
    ensures Oldest(w.pool).Some? <==> Evictable(w)
  {
    TicksFit(w, cfg);
    OldestNoneIff(w.pool);
    hide Oldest, Inv, IdleAt;
    if Oldest(w.pool).Some? {
      var j :| 0 <= j < |w.pool| && Idle(w.pool[j]) && w.pool[j].lastUpdate != MAX_TICK;
      IdleByPlace(w, cfg, j);
    }
    if c: Client :| IdleAt(w, c) && c in w.stamps && w.stamps[c] % WORD != MAX_TICK {
      var k := IdleNode(w, cfg, c);
    }
  }

  lemma IdleByPlace(w: World, cfg: Config, j: nat)
    requires Inv(w, cfg) && j < |w.pool| && Idle(w.pool[j])
    ensures var c := w.pool[j].client;
      IdleAt(w, c) && c in w.stamps && w.pool[j].lastUpdate == w.stamps[c] % WORD
  {
    NodeAt(w.pool, j);
    assert HandleOk(w, w.pool[j].client);
  }

  /** The victim is idle, and no idle handle has a smaller tick value. */
  lemma VictimHasLeastTick(w: World, cfg: Config)
    requires Inv(w, cfg) && Oldest(w.pool).Some?
    ensures var i := Oldest(w.pool).value;
      && i < |w.pool| && IdleAt(w, w.pool[i].client) && w.pool[i].client in w.stamps
      && forall c: Client | IdleAt(w, c) ::
           c in w.stamps && w.stamps[w.pool[i].client] % WORD <= w.stamps[c] % WORD
  {
    TicksFit(w, cfg);
    ScanIs(w.pool, |w.pool|);
    var i := Oldest(w.pool).value;
    var v := w.pool[i].client;
    NodeAt(w.pool, i);
    var iv := IdleNode(w, cfg, v);
    forall c: Client | IdleAt(w, c)
      ensures c in w.stamps && w.stamps[v] % WORD <= w.stamps[c] % WORD
    {
      var k := IdleNode(w, cfg, c);
    }
  }

  /**
   While idle handles are less than 2^32 ticks apart, the loop evicts a least recently updated one if
   and only if no wrap of the tick counter lies between their updates and one of them does not carry
   the largest tick value.
   */
  lemma VictimLeastRecentIff(w: World, cfg: Config)
    requires Inv(w, cfg) && ShortSpread(w)
    ensures EvictsLeastRecent(w) <==> OneEpoch(w) && Evictable(w)
  {
    hide Inv, Oldest, IdleAt, Evictable;
    VictimExists(w, cfg);
    if Oldest(w.pool).Some? {
      VictimHasLeastTick(w, cfg);
      var v := w.pool[Oldest(w.pool).value].client;
      if LeastRecent(w, v) {
        LeastRecentOneEpoch(w, v);
      }
      if OneEpoch(w) {
        forall c: Client | IdleAt(w, c) ensures w.stamps[v] <= w.stamps[c] {
          EpochOrder(w.stamps[v], w.stamps[c]);
        }
      }
    }
  }

  lemma LeastRecentOneEpoch(w: World, v: Client)
    requires ShortSpread(w) && LeastRecent(w, v)
    requires forall c: Client | IdleAt(w, c) :: c in w.stamps && w.stamps[v] % WORD <= w.stamps[c] % WORD
    ensures OneEpoch(w)
  {
    hide IdleAt;
    forall c: Client | IdleAt(w, c) ensures w.stamps[c] / WORD == w.stamps[v] / WORD {
      EpochOrder(w.stamps[v], w.stamps[c]);
    }
  }

  /** With a timely reaper idle handles are always that close, before and after the reap that precedes eviction. */
  lemma TimelyShortSpread(cfg: Config, steps: seq<Step>, period: nat)
    requires TimelyThroughout(cfg, steps, period) && cfg.timeout + period < WORD
    ensures ShortSpread(Run(EMPTY, cfg, steps)) && ShortSpread(ReapNow(Run(EMPTY, cfg, steps), cfg.timeout))
  {
    var w := Run(EMPTY, cfg, steps);
    RunKeeps(cfg, steps);
    ReapNowKeeps(w, cfg);
    forall c: Client, d: Client | IdleAt(w, c) && IdleAt(w, d) && c in w.stamps && d in w.stamps
      ensures w.stamps[c] - w.stamps[d] < WORD
    {
      IdleAgeBounded(cfg, steps, period, d);
      assert HandleOk(w, c);
    }
  }

  /** So at the end of every run with a timely reaper the exact law holds, as it does where a cleanup then evicts. */
  lemma EvictionExact(cfg: Config, steps: seq<Step>, period: nat)
    requires TimelyThroughout(cfg, steps, period) && cfg.timeout + period < WORD
    ensures var w := Run(EMPTY, cfg, steps);
      EvictsLeastRecent(w) <==> OneEpoch(w) && Evictable(w)
    ensures var r := ReapNow(Run(EMPTY, cfg, steps), cfg.timeout);
      EvictsLeastRecent(r) <==> OneEpoch(r) && Evictable(r)
  {
    var w := Run(EMPTY, cfg, steps);
    RunKeeps(cfg, steps);
    ReapNowKeeps(w, cfg);
    TimelyShortSpread(cfg, steps, period);
    VictimLeastRecentIff(w, cfg);
    VictimLeastRecentIff(ReapNow(w, cfg.timeout), cfg);
  }

  /**
   A connection coming back to a pool that is still full after the reap: it takes the place of the
   victim, or, when there is no victim, it is itself on its way to destruction and every idle one stays.
   */
  lemma LeaveEvicts(w: World, cfg: Config, c: Client, ep: Endpoint)
    requires Inv(w, cfg) && PlaceOf(w, c) == Some(Leaving) && cfg.maxPool > 0
    requires |ReapNow(w, cfg.timeout).pool| == cfg.maxPool
    ensures var r := ReapNow(w, cfg.timeout);
      var after := Apply(w, cfg, Leave(c, Some(ep), true));
      match Oldest(r.pool)
      case Some(i) =>
        && i < |r.pool| && r.pool[i].client !in after.at && PlaceOf(after, c) == Some(Pooled)
        && after.pool == Without(r.pool, i) + [NewIdle(c, ep, TickOf(w))]
      case None => PlaceOf(after, c) == Some(Destroying) && after.pool == r.pool
  {
    hide Inv, Oldest, IdleAt, ReapNow, MakeRoom;
    ReapNowKeeps(w, cfg);
    ReapKeepsTime(w, cfg.timeout);
    var r := ReapNow(w, cfg.timeout);
    OneEvicted(r, cfg);
    LeavingIsNotIdle(w, cfg, c);
    if Oldest(r.pool).Some? {
      VictimHasLeastTick(r, cfg);
      assert IdleAt(r, r.pool[Oldest(r.pool).value].client);
    }
  }

  lemma ReapKeepsTime(w: World, timeout: nat)
    ensures ReapNow(w, timeout).now == w.now
  {
  }

  lemma LeavingIsNotIdle(w: World, cfg: Config, c: Client)
    requires Inv(w, cfg) && PlaceOf(w, c) == Some(Leaving)
    ensures !IdleAt(ReapNow(w, cfg.timeout), c)
  {
    ReapNowKeeps(w, cfg);
    assert HandleOk(w, c);
  }

  /** A full pool loses its victim, or nothing. */
  lemma OneEvicted(r: World, cfg: Config)
    requires Inv(r, cfg) && |r.pool| == cfg.maxPool > 0
    ensures match Oldest(r.pool)
      case None => MakeRoom(r.pool, cfg.maxPool) == Room(false, r.pool, [])
      case Some(i) => i < |r.pool| && MakeRoom(r.pool, cfg.maxPool) == Room(true, Without(r.pool, i), [r.pool[i].client])
  {
    hide Inv, Oldest, IdleAt;
    if Oldest(r.pool).Some? {
      VictimHasLeastTick(r, cfg);
      var i := Oldest(r.pool).value;
      assert [r.pool[i].client] + [] == [r.pool[i].client];
    }
  }

  // ---- Worlds in which it fails ----

  /** Reached by a run in which the reaper is never more than a tick late. */
  ghost predicate OnTime(w: World, cfg: Config) {
    exists steps :: TimelyThroughout(cfg, steps, 1) && Run(EMPTY, cfg, steps) == w
  }

  lemma OnTimeReachable(w: World, cfg: Config)
    requires OnTime(w, cfg)
    ensures Reachable(w, cfg) && Inv(w, cfg)
  {
    InvariantAlways(w, cfg);
  }

  lemma OnTimeStep(w: World, cfg: Config, step: Step)
    requires OnTime(w, cfg) && Timely(Apply(w, cfg, step), 1)
    ensures OnTime(Apply(w, cfg, step), cfg)
  {
    var steps :| TimelyThroughout(cfg, steps, 1) && Run(EMPTY, cfg, steps) == w;
    var more := steps + [step];
    assert more[..|steps|] == steps;
    assert Run(EMPTY, cfg, more) == Apply(w, cfg, step);
    forall k | 0 <= k <= |more| ensures Timely(Run(EMPTY, cfg, more[..k]), 1) {
      if k <= |steps| { assert more[..k] == steps[..k]; } else { assert more[..k] == more; }
    }
  }

  lemma OnTimeAtFirst(cfg: Config)
    ensures OnTime(EMPTY, cfg)
  {
    assert Run(EMPTY, cfg, []) == EMPTY;
    assert TimelyThroughout(cfg, [], 1);
  }

  /** What stays the same while one more handle is used and comes back. */
  ghost predicate OnlyPlaceOf(w: World, after: World, c: Client, place: Place) {
    && after.pool == w.pool && after.leases == w.leases && after.at == w.at[c := place]
    && after.now == w.now && after.lastReap == w.lastReap && after.stamps == w.stamps
  }

  /** An application makes a handle, performs on it and starts to clean it up. */
  lemma Returning(w: World, cfg: Config, c: Client) returns (after: World)
    requires OnTime(w, cfg) && w.lastReap == w.now && c !in w.at && w.leases == []
    ensures OnTime(after, cfg) && OnlyPlaceOf(w, after, c, Leaving)
  {
    hide OnTime;
    OnTimeReachable(w, cfg);
    assert HandleOk(w, c);
    var made := Made(w, cfg, c);
    var performed := Performed(made, cfg, c);
    assert FindLease(performed.leases, c) == Some(0) && FindNode(performed.pool, c).None?;
    OnTimeStep(performed, cfg, Cleanup(c, true));
    after := Apply(performed, cfg, Cleanup(c, true));
  }

  lemma Made(w: World, cfg: Config, c: Client) returns (after: World)
    requires OnTime(w, cfg) && w.lastReap == w.now && c !in w.at && w.leases == []
    ensures OnTime(after, cfg) && OnlyPlaceOf(w, after.(leases := []), c, Held) && after.leases == [Lease(c, false)]
  {
    hide OnTime;
    OnTimeStep(w, cfg, InitNew(c));
    var born := Apply(w, cfg, InitNew(c));
    OnTimeStep(born, cfg, Track(c, true));
    after := Apply(born, cfg, Track(c, true));
    assert w.at[c := Fresh][c := Held] == w.at[c := Held];
  }

  lemma Performed(w: World, cfg: Config, c: Client) returns (after: World)
    requires OnTime(w, cfg) && w.lastReap == w.now && PlaceOf(w, c) == Some(Held) && w.leases == [Lease(c, false)]
    ensures OnTime(after, cfg) && OnlyPlaceOf(w.(leases := [Lease(c, true)]), after, c, Held)
  {
    hide OnTime;
    assert FindLease(w.leases, c) == Some(0);
    OnTimeStep(w, cfg, Perform(c));
    var tried := Apply(w, cfg, Perform(c));
    OnTimeStep(tried, cfg, Outcome(c, true));
    after := Apply(tried, cfg, Outcome(c, true));
    assert tried.leases == [Lease(c, true)];
    assert w.at[c := Attempting][c := Held] == w.at[c := Held];
  }

  /** And it goes into a pool with room and nothing to reap. */
  lemma Pools(w: World, cfg: Config, c: Client, ep: Endpoint) returns (after: World)
    requires OnTime(w, cfg) && w.lastReap == w.now && c !in w.at && w.leases == [] && |w.pool| < cfg.maxPool
    requires WellTicked(w.pool) && forall i | 0 <= i < |w.pool| :: Keeps(w.pool[i], TickOf(w), cfg.timeout)
    ensures OnTime(after, cfg) && after.pool == w.pool + [NewIdle(c, ep, TickOf(w))] && after.leases == []
    ensures after.at == w.at[c := Pooled] && after.now == after.lastReap == w.now && after.stamps == w.stamps[c := w.now]
  {
    hide OnTime;
    var leaving := Returning(w, cfg, c);
    NothingReaped(leaving.pool, TickOf(w), cfg.timeout);
    assert Shed(leaving, leaving.pool, []) == leaving by { NoneShed(leaving); }
    OnTimeStep(leaving, cfg, Leave(c, Some(ep), true));
    after := Apply(leaving, cfg, Leave(c, Some(ep), true));
    assert w.at[c := Leaving][c := Pooled] == w.at[c := Pooled];
  }

  lemma {:induction false} NothingReaped(pool: seq<Node>, tick: nat, timeout: nat)
    requires tick < WORD && WellTicked(pool) && forall i | 0 <= i < |pool| :: Keeps(pool[i], tick, timeout)
    ensures Reaped(pool, tick, timeout) == pool && ReapedClients(pool, tick, timeout) == []
  {
    if pool != [] {
      NothingReaped(pool[1..], tick, timeout);
    }
  }

  lemma NoneShed(w: World)
    ensures Shed(w, w.pool, []) == w
  {
    assert w.at - (set c: Client | c in []) == w.at;
    assert w.log + Destroys([]) == w.log;
  }

  lemma IdleIsPooled(w: World, cfg: Config, c: Client)
    requires Inv(w, cfg) && IdleAt(w, c)
    ensures PlaceOf(w, c) == Some(Pooled)
  {
    assert HandleOk(w, c);
  }

  /** A reap that finds nothing due changes nothing. */
  lemma NothingDue(w: World, cfg: Config)
    requires WellTicked(w.pool) && forall i | 0 <= i < |w.pool| :: Keeps(w.pool[i], TickOf(w), cfg.timeout)
    ensures ReapNow(w, cfg.timeout) == w
  {
    NothingReaped(w.pool, TickOf(w), cfg.timeout);
    NoneShed(w);
  }

  // ---- Many connections coming back at once ----

  /** Handles first, first + 1, .. as the pool holds them when they all came back at one tick. */
  function Batch(first: Client, n: nat, ep: Endpoint, tick: nat): (s: seq<Node>)
    ensures |s| == n && forall i | 0 <= i < n :: s[i] == NewIdle(first + i, ep, tick)
  {
    seq(n, i requires 0 <= i => NewIdle(first + i, ep, tick))
  }

  ghost predicate UnusedFrom(w: World, first: Client) {
    forall c: Client | first <= c :: c !in w.at
  }

  /** n handles, used one after the other, go into a pool with room for them and nothing to reap. */
  lemma {:induction false} PoolsMany(w: World, cfg: Config, first: Client, n: nat, ep: Endpoint) returns (after: World)
    requires OnTime(w, cfg) && w.lastReap == w.now && UnusedFrom(w, first) && w.leases == []
    requires |w.pool| + n <= cfg.maxPool && cfg.timeout > 0
    requires WellTicked(w.pool) && forall i | 0 <= i < |w.pool| :: Keeps(w.pool[i], TickOf(w), cfg.timeout)
    ensures OnTime(after, cfg) && after.lastReap == after.now && UnusedFrom(after, first + n) && after.leases == []
    ensures after.pool == w.pool + Batch(first, n, ep, TickOf(w)) && after.now == w.now
    ensures forall c: Client :: if first <= c < first + n then c in after.stamps && after.stamps[c] == w.now
                                else c in w.stamps ==> c in after.stamps && after.stamps[c] == w.stamps[c]
    decreases n
  {
    hide OnTime;
    if n == 0 {
      after := w;
    } else {
      var one := Pools(w, cfg, first, ep);
      assert UnusedFrom(one, first + 1);
      after := PoolsMany(one, cfg, first + 1, n - 1, ep);
      assert [NewIdle(first, ep, TickOf(w))] + Batch(first + 1, n - 1, ep, TickOf(w)) == Batch(first, n, ep, TickOf(w));
    }
  }

  /** One connection came back two ticks before the counter wrapped, the others just as it did. */
  ghost predicate Straddling(w: World, cfg: Config, ep: Endpoint) {
    && cfg.maxPool >= 2
    && w.pool == [NewIdle(1, ep, WORD - 2)] + Batch(2, cfg.maxPool - 1, ep, 0)
    && w.now == WORD && 1 in w.stamps && w.stamps[1] == WORD - 2
    && forall c: Client | 2 <= c <= cfg.maxPool :: c in w.stamps && w.stamps[c] == WORD
  }

  lemma StraddlingKept(w: World, cfg: Config, ep: Endpoint)
    requires Straddling(w, cfg, ep) && cfg.timeout > 2
    ensures WellTicked(w.pool) && forall i | 0 <= i < |w.pool| :: Keeps(w.pool[i], TickOf(w), cfg.timeout)
  {
  }

  lemma BatchIdle(w: World, first: Client, n: nat, ep: Endpoint, tick: nat, before: seq<Node>, c: Client)
    requires w.pool == before + Batch(first, n, ep, tick)
    requires forall i | 0 <= i < |before| :: before[i].client < first && Idle(before[i])
    requires first <= c < first + n
    ensures IdleAt(w, c)
  {
    var k := |before| + (c - first);
    assert w.pool[k] == NewIdle(c, ep, tick);
    assert forall j | 0 <= j < k :: w.pool[j].client != c;
    assert FindNode(w.pool, c) == Some(k);
  }

  lemma StraddlingVictim(w: World, cfg: Config, ep: Endpoint)
    requires Straddling(w, cfg, ep)
    ensures Oldest(w.pool) == Some(1) && w.pool[1].client == 2
  {
    ScanIs(w.pool, |w.pool|);
    assert Idle(w.pool[0]) && w.pool[0].lastUpdate == WORD - 2;
    assert Idle(w.pool[1]) && w.pool[1].lastUpdate == 0;
  }

  lemma StraddlingFacts(w: World, cfg: Config, ep: Endpoint)
    requires Straddling(w, cfg, ep)
    ensures IdleAt(w, 1) && IdleAt(w, 2) && ShortSpread(w) && !EvictsLeastRecent(w)
  {
    StraddlingVictim(w, cfg, ep);
    assert IdleAt(w, 1) by { assert FindNode(w.pool, 1) == Some(0); }
    BatchIdle(w, 2, cfg.maxPool - 1, ep, 0, [NewIdle(1, ep, WORD - 2)], 2);
    hide Oldest;
    forall c: Client | IdleAt(w, c) ensures 1 <= c <= cfg.maxPool {
    }
  }

  /** A tick passes and the reaper runs, with nothing to do. */
  lemma Wait(w: World, cfg: Config) returns (after: World)
    requires OnTime(w, cfg) && w.lastReap == w.now && WellTicked(w.pool)
    requires forall i | 0 <= i < |w.pool| :: Keeps(w.pool[i], (w.now + 1) % WORD, cfg.timeout)
    ensures OnTime(after, cfg) && after == w.(now := w.now + 1, lastReap := w.now + 1)
  {
    hide OnTime, Reaped, ReapedClients, MakeRoom;
    OnTimeStep(w, cfg, Tick(1));
    var later := Apply(w, cfg, Tick(1));
    NothingDue(later, cfg);
    OnTimeStep(later, cfg, ReapTimer);
    after := Apply(later, cfg, ReapTimer);
  }

  /** Nothing happens for this long. */
  lemma {:induction false} Quiet(cfg: Config, ticks: nat) returns (after: World)
    ensures OnTime(after, cfg) && after == EMPTY.(now := ticks, lastReap := ticks)
  {
    hide OnTime;
    if ticks == 0 {
      OnTimeAtFirst(cfg);
      after := EMPTY;
    } else {
      var before := Quiet(cfg, ticks - 1);
      after := Wait(before, cfg);
    }
  }

  lemma ReachStraddling(cfg: Config, ep: Endpoint) returns (w: World)
    requires cfg.maxPool >= 2 && cfg.timeout > 2
    ensures OnTime(w, cfg) && w.lastReap == w.now && Straddling(w, cfg, ep) && UnusedFrom(w, cfg.maxPool + 1) && w.leases == []
  {
    hide Apply, OnTime;
    var early := Quiet(cfg, WORD - 2);
    var one := PoolsMany(early, cfg, 1, 1, ep);
    assert one.pool == [NewIdle(1, ep, WORD - 2)];
    var turn := Wait(one, cfg);
    var late := Wait(turn, cfg);
    w := PoolsMany(late, cfg, 2, cfg.maxPool - 1, ep);
  }

  /**
   Whatever the pool size from two and the timeout from three ticks on (a build has at least four connections
   and five seconds), and with the reaper on time: a full pool in which the next connection to come back takes
   the place of a more recent one.
   */
  lemma RecentEvicted(cfg: Config, ep: Endpoint) returns (w: World, after: World)
    requires cfg.maxPool >= 2 && cfg.timeout > 2
    ensures OnTime(w, cfg) && |w.pool| == cfg.maxPool && ShortSpread(w) && !EvictsLeastRecent(w)
    ensures IdleAt(w, 1) && IdleAt(w, 2) && 1 in w.stamps && 2 in w.stamps && w.stamps[1] < w.stamps[2]
    ensures var c := cfg.maxPool + 1;
      PlaceOf(w, c) == Some(Leaving) && after == Apply(w, cfg, Leave(c, Some(ep), true))
    ensures PlaceOf(after, 1) == Some(Pooled) && PlaceOf(after, 2) == None
  {
    hide Inv, Scan, Oldest, ReapNow, ShortSpread, EvictsLeastRecent, IdleAt, Keeps, Apply, OnTime;
    var c := cfg.maxPool + 1;
    var full := ReachStraddling(cfg, ep);
    w := Returning(full, cfg, c);
    StraddlingFacts(w, cfg, ep);
    StraddlingVictim(w, cfg, ep);
    OnTimeReachable(w, cfg);
    StraddlingKept(w, cfg, ep);
    NothingDue(w, cfg);
    LeaveEvicts(w, cfg, c, ep);
    after := Apply(w, cfg, Leave(c, Some(ep), true));
    ApplyKeeps(w, cfg, Leave(c, Some(ep), true));
    FirstStaysIdle(after, ep);
    IdleIsPooled(after, cfg, 1);
  }

  lemma FirstStaysIdle(after: World, ep: Endpoint)
    requires |after.pool| > 0 && after.pool[0] == NewIdle(1, ep, WORD - 2)
    ensures IdleAt(after, 1)
  {
    assert FindNode(after.pool, 1) == Some(0);
  }

  /**
   At the tick just before a wrap the search finds nothing, whatever the pool size and the timeout: the pool
   is full of idle connections, and the next one to come back is destroyed instead.
   */
  lemma NothingEvicted(cfg: Config, ep: Endpoint) returns (w: World, after: World)
    requires cfg.maxPool > 0 && cfg.timeout > 0
    ensures OnTime(w, cfg) && ShortSpread(w) && OneEpoch(w) && !EvictsLeastRecent(w)
    ensures |w.pool| == cfg.maxPool && forall c: Client | 1 <= c <= cfg.maxPool :: IdleAt(w, c)
    ensures var c := cfg.maxPool + 1;
      && PlaceOf(w, c) == Some(Leaving) && after == Apply(w, cfg, Leave(c, Some(ep), true))
      && PlaceOf(after, c) == Some(Destroying) && after.pool == w.pool
  {
    hide Inv, Scan, Oldest, ReapNow, ShortSpread, EvictsLeastRecent, IdleAt, Keeps, OnTime, OneEpoch;
    var c := cfg.maxPool + 1;
    var full := ReachLastTick(cfg, ep);
    w := Returning(full, cfg, c);
    LastTickFacts(w, cfg, ep);
    OnTimeReachable(w, cfg);
    NothingDue(w, cfg);
    LeaveEvicts(w, cfg, c, ep);
    after := Apply(w, cfg, Leave(c, Some(ep), true));
  }

  ghost predicate AtLastTick(w: World, cfg: Config, ep: Endpoint) {
    && w.pool == Batch(1, cfg.maxPool, ep, MAX_TICK) && w.now == MAX_TICK
    && forall c: Client | 1 <= c <= cfg.maxPool :: c in w.stamps && w.stamps[c] == MAX_TICK
  }

  lemma ReachLastTick(cfg: Config, ep: Endpoint) returns (w: World)
    requires cfg.maxPool > 0 && cfg.timeout > 0
    ensures OnTime(w, cfg) && w.lastReap == w.now && AtLastTick(w, cfg, ep) && UnusedFrom(w, cfg.maxPool + 1) && w.leases == []
  {
    hide Apply, OnTime, Keeps;
    var last := Quiet(cfg, MAX_TICK);
    w := PoolsMany(last, cfg, 1, cfg.maxPool, ep);
    assert [] + Batch(1, cfg.maxPool, ep, MAX_TICK) == Batch(1, cfg.maxPool, ep, MAX_TICK);
  }

  lemma LastTickKept(w: World, cfg: Config, ep: Endpoint)
    requires AtLastTick(w, cfg, ep) && cfg.timeout > 0
    ensures WellTicked(w.pool) && forall i | 0 <= i < |w.pool| :: Keeps(w.pool[i], TickOf(w), cfg.timeout)
    ensures Oldest(w.pool) == None
  {
    OldestNoneIff(w.pool);
  }

  lemma LastTickIdle(w: World, cfg: Config, ep: Endpoint, c: Client)
    requires AtLastTick(w, cfg, ep)
    ensures IdleAt(w, c) <==> 1 <= c <= cfg.maxPool
  {
    assert [] + Batch(1, cfg.maxPool, ep, MAX_TICK) == Batch(1, cfg.maxPool, ep, MAX_TICK);
    if 1 <= c <= cfg.maxPool {
      BatchIdle(w, 1, cfg.maxPool, ep, MAX_TICK, [], c);
    }
  }

  lemma LastTickFacts(w: World, cfg: Config, ep: Endpoint)
    requires AtLastTick(w, cfg, ep) && cfg.timeout > 0
    ensures WellTicked(w.pool) && forall i | 0 <= i < |w.pool| :: Keeps(w.pool[i], TickOf(w), cfg.timeout)
    ensures forall c: Client | 1 <= c <= cfg.maxPool :: IdleAt(w, c)
    ensures ShortSpread(w) && OneEpoch(w) && Oldest(w.pool) == None && !EvictsLeastRecent(w)
  {
    hide Oldest, IdleAt, Keeps;
    LastTickKept(w, cfg, ep);
    forall c: Client ensures IdleAt(w, c) <==> 1 <= c <= cfg.maxPool {
      LastTickIdle(w, cfg, ep, c);
    }
  }
}
