/**
 The reuse layer's two lists edited in place (components/http_reuse/esp_http_client_reuse.c), one
 method per function that walks a list and one per locked region, each proved to be the
 corresponding step of HttpWorld. The ledger, the true clock and the log are ghosts.
 */
module HttpReuse {
  import opened Common
  import opened HttpPool
  import opened HttpWorld
  import opened HttpInvariant
  import opened HttpTheorems
  import opened HttpMatching

  /** A node found idle after the reap belongs to a handle that was idle in the pool before it. */
  lemma ReusableWasPooled(w: World, cfg: Config, target: Endpoint, i: nat)
    requires Inv(w, cfg) && FindIdle(ReapNow(w, cfg.timeout).pool, target) == Some(i)
    ensures var r := ReapNow(w, cfg.timeout);
      i < |r.pool| && PlaceOf(w, r.pool[i].client) == Some(Pooled)
  {
    ReapNowKeeps(w, cfg);
    var r := ReapNow(w, cfg.timeout);
    NodeAt(r.pool, i);
    assert HandleOk(w, r.pool[i].client);
  }

  lemma ReapedNone(tick: nat, timeout: nat)
    requires tick < WORD
    ensures Reaped([], tick, timeout) == [] && ReapedClients([], tick, timeout) == []
  {
  }

  lemma NothingBefore(pool: seq<Node>, maxPool: nat)
    ensures [] + MakeRoom(pool, maxPool).evicted == MakeRoom(pool, maxPool).evicted
  {
  }

  lemma NoRoom(pool: seq<Node>, maxPool: nat, evicted: seq<Client>)
    requires |pool| >= maxPool && Oldest(pool).None?
    ensures MakeRoom(pool, maxPool) == Room(false, pool, []) && evicted + [] == evicted
  {
  }

  lemma EnoughRoom(pool: seq<Node>, maxPool: nat, evicted: seq<Client>)
    requires |pool| < maxPool
    ensures MakeRoom(pool, maxPool) == Room(true, pool, []) && evicted + [] == evicted
  {
  }

  /** After one victim the rest of the evictions are those of the pool without it. */
  lemma EvictsThenRest(pool: seq<Node>, maxPool: nat, i: nat, evicted: seq<Client>)
    requires |pool| >= maxPool && i < |pool| && Oldest(pool) == Some(i)
    ensures var rest, all := MakeRoom(Without(pool, i), maxPool), MakeRoom(pool, maxPool);
      && all.ok == rest.ok && all.pool == rest.pool
      && evicted + all.evicted == (evicted + [pool[i].client]) + rest.evicted
  {
    var rest := MakeRoom(Without(pool, i), maxPool);
    assert evicted + ([pool[i].client] + rest.evicted) == (evicted + [pool[i].client]) + rest.evicted;
  }

  class ReuseLayer {
    const cfg: Config
    var pool: seq<Node>
    var leases: seq<Lease>
    ghost var at: map<Client, Place>
    ghost var now: nat
    ghost var stamps: map<Client, nat>
    ghost var lastReap: nat
    ghost var log: seq<Event>

    ghost function State(): World
      reads this
    {
      World(pool, leases, at, now, stamps, lastReap, log)
    }

    ghost predicate Valid()
      reads this
    {
      Inv(State(), cfg)
    }

    constructor (cfg: Config)
      ensures Valid() && State() == EMPTY && this.cfg == cfg
    {
      this.cfg := cfg;
      pool, leases := [], [];
      at, now, stamps, lastReap, log := map[], 0, map[], 0, [];
      new;
      RunKeeps(cfg, []);
    }

    // ---- Walking the lists ----

    /** pool_reap_idle_locked: unlink and destroy every idle node that has reached the timeout. */
    method ReapIdle(tick: nat) returns (destroyed: seq<Client>)
      requires tick < WORD && WellTicked(pool)
      modifies this`pool
      ensures pool == Reaped(old(pool), tick, cfg.timeout)
      ensures destroyed == ReapedClients(old(pool), tick, cfg.timeout)
    {
      hide Reaped, ReapedClients;
      destroyed := [];
      var i := 0;
      while i < |pool|
        invariant 0 <= i <= |pool| && WellTicked(pool)
        invariant pool[..i] + Reaped(pool[i..], tick, cfg.timeout) == Reaped(old(pool), tick, cfg.timeout)
        invariant destroyed + ReapedClients(pool[i..], tick, cfg.timeout) == ReapedClients(old(pool), tick, cfg.timeout)
        decreases |pool| - i
      {
        var n := pool[i];
        ghost var before := pool;
        ReapedAt(before, i, tick, cfg.timeout);
        if !n.persistent || n.leased || Elapsed(tick, n.lastUpdate) < cfg.timeout {
          assert before[..i + 1] == before[..i] + [n];
          i := i + 1;
        } else {
          pool := pool[..i] + pool[i + 1..];
          assert pool[..i] == before[..i] && pool[i..] == before[i + 1..];
          destroyed := destroyed + [n.client];
        }
      }
      assert pool[..i] == pool && pool[i..] == [];
      ReapedNone(tick, cfg.timeout);
    }

    method FindPooled(c: Client) returns (index: int)
      ensures FindNode(pool, c) == if index < 0 then None else Some(index)
    {
      for i := 0 to |pool|
        invariant forall j | 0 <= j < i :: pool[j].client != c
      {
        if pool[i].client == c {
          return i;
        }
      }
      return -1;
    }

    method FindLeased(c: Client) returns (index: int)
      ensures FindLease(leases, c) == if index < 0 then None else Some(index)
    {
      for i := 0 to |leases|
        invariant forall j | 0 <= j < i :: leases[j].client != c
      {
        if leases[i].client == c {
          return i;
        }
      }
      return -1;
    }

    method FindReusable(target: Endpoint) returns (index: int)
      ensures FindIdle(pool, target) == if index < 0 then None else Some(index)
    {
      for i := 0 to |pool|
        invariant forall j | 0 <= j < i :: !(Idle(pool[j]) && Matches(target, pool[j].endpoint))
      {
        if pool[i].persistent && !pool[i].leased && Matches(target, pool[i].endpoint) {
          return i;
        }
      }
      return -1;
    }

    /** The scan for the node to evict. */
    method FindVictim() returns (index: int)
      ensures Oldest(pool) == if index < 0 then None else Some(index)
      ensures index < |pool|
    {
      index := -1;
      var ticks: nat := MAX_TICK;
      for i := 0 to |pool|
        invariant Scan(pool, i) == Best(if index < 0 then None else Some(index), ticks) && index < i
      {
        if pool[i].persistent && !pool[i].leased && pool[i].lastUpdate < ticks {
          ticks := pool[i].lastUpdate;
          index := i;
        }
      }
    }

    /** The eviction loop of pool_insert_locked. */
    method Evict() returns (ok: bool, evicted: seq<Client>)
      modifies this`pool
      ensures Room(ok, pool, evicted) == MakeRoom(old(pool), cfg.maxPool)
    {
      hide Oldest, MakeRoom;
      evicted := [];
      NothingBefore(pool, cfg.maxPool);
      while |pool| >= cfg.maxPool
        invariant var rest := MakeRoom(pool, cfg.maxPool);
          Room(rest.ok, rest.pool, evicted + rest.evicted) == MakeRoom(old(pool), cfg.maxPool)
        decreases |pool|
      {
        var i := FindVictim();
        if i < 0 {
          NoRoom(pool, cfg.maxPool, evicted);
          return false, evicted;
        }
        EvictsThenRest(pool, cfg.maxPool, i, evicted);
        evicted := evicted + [pool[i].client];
        pool := pool[..i] + pool[i + 1..];
      }
      EnoughRoom(pool, cfg.maxPool, evicted);
      return true, evicted;
    }

    method RemoveLease(c: Client) returns (performed: bool)
      modifies this`leases
      ensures leases == DropLease(old(leases), c)
      ensures performed == (LeaseOf(old(leases), c).Some? && LeaseOf(old(leases), c).value.performed)
    {
      var i := FindLeased(c);
      if i < 0 {
        return false;
      }
      performed := leases[i].performed;
      leases := leases[..i] + leases[i + 1..];
    }

    // ---- Locked regions ----

    /** Bookkeeping for clients the lists have lost: they are dead. */
    ghost method Bury(dropped: seq<Client>)
      modifies this`at, this`log
      ensures at == old(at) - (set c | c in dropped) && log == old(log) + Destroys(dropped)
    {
      at := at - (set c | c in dropped);
      log := log + Destroys(dropped);
    }

    method Reap(tick: nat)
      requires Valid() && tick == now % WORD
      modifies this`pool, this`at, this`log
      ensures Valid() && State() == ReapNow(old(State()), cfg.timeout)
    {
      ReapNowKeeps(State(), cfg);
      var destroyed := ReapIdle(tick);
      Bury(destroyed);
    }

    method OnReapTimer(tick: nat)
      requires Valid() && tick == now % WORD
      modifies this`pool, this`at, this`log, this`lastReap
      ensures Valid() && State() == Apply(old(State()), cfg, ReapTimer)
    {
      ApplyKeeps(State(), cfg, ReapTimer);
      Reap(tick);
      lastReap := now;
    }

    /** pool_take_locked under its lock. */
    method Take(tick: nat, target: Endpoint, healthy: bool) returns (c: Option<Client>)
      requires Valid() && tick == now % WORD
      modifies this`pool, this`at, this`log, this`stamps
      ensures Valid() && State() == Apply(old(State()), cfg, InitTake(target, healthy))
      ensures c.Some? ==> c.value in at && at[c.value] == Taken && old(PlaceOf(State(), c.value)) == Some(Pooled)
      ensures c.Some? ==> NodeOf(pool, c.value).Some? && SameServer(target, NodeOf(pool, c.value).value.endpoint)
    {
      hide Inv, Reaped, ReapedClients, Matches, SameServer;
      ghost var before := State();
      ApplyKeeps(before, cfg, InitTake(target, healthy));
      ReapNowKeeps(before, cfg);
      Reap(tick);
      var i := FindReusable(target);
      if i < 0 {
        return None;
      }
      var n := pool[i];
      NodeAt(pool, i);
      ReusableWasPooled(before, cfg, target, i);
      NodeUpdated(pool, i, TakenNode(n, tick), n.client);
      MatchesIs(target, n.endpoint);
      if !healthy {
        pool := pool[..i] + pool[i + 1..];
        Bury([n.client]);
        return None;
      }
      pool := pool[i := n.(leased := true, reused := true, lastUpdate := tick)];
      stamps := stamps[n.client := now];
      at := at[n.client := Taken];
      log := log + [LeaseBegan(n.client, true)];
      return Some(n.client);
    }

    /** pool_detach_and_destroy_client_locked, after a pool hit whose url could not be set. */
    method DetachAndDestroy(c: Client)
      requires Valid() && PlaceOf(State(), c) == Some(Discarding)
      modifies this`pool, this`at, this`log
      ensures Valid() && State() == Apply(old(State()), cfg, Discard(c))
      ensures c !in at && NodeOf(pool, c).None?
    {
      hide HandleOk, Counts, Lawful, Live;
      ghost var before := State();
      ApplyKeeps(before, cfg, Discard(c));
      var i := FindPooled(c);
      if i >= 0 {
        NodeRemoved(pool, i);
        pool := pool[..i] + pool[i + 1..];
      }
      at := at - {c};
      log := log + [Destroyed(c)];
    }

    /** lease_insert_locked for a new handle. */
    method TrackLease(c: Client, alloc: bool) returns (err: Err)
      requires Valid() && PlaceOf(State(), c) == Some(Fresh)
      modifies this`leases, this`at
      ensures Valid() && State() == Apply(old(State()), cfg, Track(c, alloc))
      ensures err == Err.Ok <==> LeaseOf(leases, c).Some?
    {
      ApplyKeeps(State(), cfg, Track(c, alloc));
      at := at[c := Held];
      var i := FindLeased(c);
      if i >= 0 {
        return Err.Ok;
      }
      if !alloc {
        return NoMem;
      }
      LeaseAppended(leases, Lease(c, false), c);
      leases := leases + [Lease(c, false)];
      return Err.Ok;
    }

    /** First locked region of perform. */
    method MarkPerform(c: Client)
      requires Valid() && PlaceOf(State(), c) == Some(Held)
      modifies this`leases, this`at, this`log
      ensures Valid() && State() == Apply(old(State()), cfg, Perform(c))
    {
      ApplyKeeps(State(), cfg, Perform(c));
      var i := FindLeased(c);
      if i >= 0 {
        leases := leases[i := leases[i].(performed := true)];
      }
      at := at[c := Attempting];
      log := log + [AppPerform(c), RealPerform(c)];
    }

    /** Second locked region of perform, after a failure: may this lease still retry? */
    method DecideRetry(c: Client) returns (retry: bool)
      requires Valid() && PlaceOf(State(), c) == Some(Failed)
      modifies this`pool, this`at, this`log
      ensures Valid() && State() == Apply(old(State()), cfg, Decide(c))
      ensures retry <==> at[c] == Retrying
    {
      hide Inv;
      ApplyKeeps(State(), cfg, Decide(c));
      var i := FindPooled(c);
      retry := i >= 0 && pool[i].reused;
      if retry {
        pool := pool[i := pool[i].(reused := false)];
        at := at[c := Retrying];
        log := log + [RealPerform(c)];
      } else {
        at := at[c := Held];
      }
    }

    /** First locked region of cleanup. */
    method CleanupRegion(c: Client, persistent: bool, tick: nat)
      requires Valid() && PlaceOf(State(), c) == Some(Held) && tick == now % WORD
      modifies this`pool, this`leases, this`at, this`stamps
      ensures Valid() && State() == Apply(old(State()), cfg, Cleanup(c, persistent))
    {
      hide Inv;
      ApplyKeeps(State(), cfg, Cleanup(c, persistent));
      var i := FindPooled(c);
      var performed := RemoveLease(c);
      if i >= 0 {
        if !persistent {
          pool := pool[..i] + pool[i + 1..];
          at := at[c := Destroying];
        } else {
          pool := pool[i := pool[i].(persistent := true, leased := false, reused := false, lastUpdate := tick)];
          stamps := stamps[c := now];
          at := at[c := Pooled];
        }
      } else {
        at := at[c := if !persistent || !performed then Destroying else Leaving];
      }
    }

    /** Second locked region of cleanup: pool_insert_locked for a handle whose endpoint is known. */
    method InsertRegion(c: Client, ep: Endpoint, alloc: bool, tick: nat) returns (err: Err)
      requires Valid() && PlaceOf(State(), c) == Some(Leaving) && tick == now % WORD
      modifies this`pool, this`at, this`log, this`stamps
      ensures Valid() && State() == Apply(old(State()), cfg, Leave(c, Some(ep), alloc))
      ensures err == Err.Ok <==> at[c] == Pooled
    {
      hide Inv, Reaped, ReapedClients, MakeRoom;
      ApplyKeeps(State(), cfg, Leave(c, Some(ep), alloc));
      Reap(tick);
      var ok, evicted := Evict();
      Bury(evicted);
      if !ok || !alloc {
        at := at[c := Destroying];
        return NoMem;
      }
      pool := pool + [Node(c, ep, tick, true, false, false)];
      stamps := stamps[c := now];
      at := at[c := Pooled];
      return Err.Ok;
    }

    /** Moves made outside the locks: time passing, handles created, client calls returning, handles destroyed. */
    ghost method Outside(step: Step)
      requires Valid()
      requires step.Tick? || step.InitBypass? || step.InitNew? || step.UrlSet? || step.Outcome?
               || step.RetryDone? || step.Destroy?
      modifies this`at, this`now, this`log
      ensures Valid() && State() == Apply(old(State()), cfg, step)
    {
      hide Inv;
      ApplyKeeps(State(), cfg, step);
      var after := Apply(State(), cfg, step);
      at, now, log := after.at, after.now, after.log;
    }
  }
}
