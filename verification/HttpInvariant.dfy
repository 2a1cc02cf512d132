/**
 Every step of the reuse layer keeps the pool, the lease list and the ledger of handles in
 agreement. Main result: ApplyKeeps.
 */
module HttpInvariant {
  import opened Common
  import opened HttpPool
  import opened HttpWorld

  lemma Snoc(log: seq<Event>, e: Event)
    ensures log + [e] != [] && Last(log + [e]) == e && Front(log + [e]) == log
  {
  }

  lemma TicksFit(w: World, cfg: Config)
    requires Inv(w, cfg)
    ensures WellTicked(w.pool)
  {
    forall i | 0 <= i < |w.pool| ensures w.pool[i].lastUpdate < WORD {
      NodeAt(w.pool, i);
      assert HandleOk(w, w.pool[i].client);
    }
  }

  // ---- Dropping idle clients ----

  ghost function AsSet(cs: seq<Client>): set<Client> { set c | c in cs }

  lemma DestroysSnoc(log: seq<Event>, cs: seq<Client>)
    requires cs != []
    ensures log + Destroys(cs) == (log + Destroys(cs[..|cs| - 1])) + [Destroyed(cs[|cs| - 1])]
  {
  }

  lemma DestroyedReads(log: seq<Event>, c: Client)
    ensures var more := log + [Destroyed(c)];
      && (Lawful(more) <==> Lawful(log) && c in Live(log)) && Live(more) == Live(log) - {c}
      && forall d: Client :: Counts(more, d) == Counts(log, d)
  {
    Snoc(log, Destroyed(c));
  }

  lemma {:induction false} DestroysLawful(log: seq<Event>, cs: seq<Client>)
    requires Lawful(log) && Distinct(cs) && AsSet(cs) <= Live(log)
    ensures Lawful(log + Destroys(cs)) && Live(log + Destroys(cs)) == Live(log) - AsSet(cs)
  {
    hide Lawful, Live;
    if cs == [] {
      assert log + Destroys(cs) == log && AsSet(cs) == {};
    } else {
      var front := cs[..|cs| - 1];
      var last := cs[|cs| - 1];
      assert cs == front + [last];
      assert AsSet(cs) == AsSet(front) + {last};
      DestroysLawful(log, front);
      DestroysSnoc(log, cs);
      DestroyedReads(log + Destroys(front), last);
      assert last !in front && last in AsSet(cs);
    }
  }

  lemma {:induction false} DestroysCount(log: seq<Event>, cs: seq<Client>, c: Client)
    ensures Counts(log + Destroys(cs), c) == Counts(log, c)
  {
    hide Counts;
    if cs == [] {
      assert log + Destroys(cs) == log;
    } else {
      var front := cs[..|cs| - 1];
      DestroysCount(log, front, c);
      DestroysSnoc(log, cs);
      DestroyedReads(log + Destroys(front), cs[|cs| - 1]);
    }
  }

  /** Dropping idle clients from the pool, destroying each, keeps the invariant. */
  lemma ShedKeeps(w: World, cfg: Config, pool: seq<Node>, dropped: seq<Client>)
    requires Inv(w, cfg) && Shrunk(w.pool, pool, dropped)
    ensures Inv(Shed(w, pool, dropped), cfg)
    ensures forall c | c in dropped :: PlaceOf(w, c) == Some(Pooled)
  {
    var after := Shed(w, pool, dropped);
    forall c | c in dropped ensures c in w.at && w.at[c] == Pooled && LeaseOf(w.leases, c).None? {
      assert HandleOk(w, c);
    }
    DestroysLawful(w.log, dropped);
    assert after.at.Keys == w.at.Keys - AsSet(dropped);
    forall c: Client ensures HandleOk(after, c) {
      assert HandleOk(w, c);
      DestroysCount(w.log, dropped, c);
    }
  }

  lemma ReapNowKeeps(w: World, cfg: Config)
    requires Inv(w, cfg)
    ensures WellTicked(w.pool)
    ensures Inv(ReapNow(w, cfg.timeout), cfg)
    ensures Shrunk(w.pool, ReapNow(w, cfg.timeout).pool, ReapedClients(w.pool, TickOf(w), cfg.timeout))
    ensures ReapNow(w, cfg.timeout)
         == Shed(w, Reaped(w.pool, TickOf(w), cfg.timeout), ReapedClients(w.pool, TickOf(w), cfg.timeout))
  {
    TicksFit(w, cfg);
    ReapShrinks(w.pool, TickOf(w), cfg.timeout);
    ShedKeeps(w, cfg, Reaped(w.pool, TickOf(w), cfg.timeout), ReapedClients(w.pool, TickOf(w), cfg.timeout));
  }

  // ---- Steps about one handle ----

  /** Nothing about any handle but c has changed. */
  ghost predicate OnlyAbout(w: World, after: World, c: Client) {
    && (forall d: Client | d != c :: NodeOf(after.pool, d) == NodeOf(w.pool, d))
    && (forall d: Client | d != c :: LeaseOf(after.leases, d) == LeaseOf(w.leases, d))
    && (forall d: Client | d != c :: PlaceOf(after, d) == PlaceOf(w, d))
    && (forall d: Client | d != c :: Counts(after.log, d) == Counts(w.log, d))
    && (forall d: Client | d != c && d in w.stamps :: d in after.stamps && after.stamps[d] == w.stamps[d])
    && after.now == w.now && after.lastReap == w.lastReap
  }

  lemma OneHandle(w: World, cfg: Config, after: World, c: Client)
    requires Inv(w, cfg) && OnlyAbout(w, after, c) && HandleOk(after, c)
    requires DistinctClients(after.pool) && DistinctLeases(after.leases) && |after.pool| <= cfg.maxPool
    requires after.at.Keys == Live(after.log) && Lawful(after.log)
    ensures Inv(after, cfg)
  {
    forall d: Client ensures HandleOk(after, d) {
      assert HandleOk(w, d);
      if d != c {
        assert PlaceOf(after, d) == PlaceOf(w, d);
        assert NodeOf(after.pool, d) == NodeOf(w.pool, d);
        assert LeaseOf(after.leases, d) == LeaseOf(w.leases, d);
      }
    }
  }

  lemma PutKeeps(w: World, cfg: Config, c: Client, place: Place)
    requires Inv(w, cfg) && c in w.at && HandleOk(Put(w, c, place), c)
    ensures Inv(Put(w, c, place), cfg)
    ensures OnlyAbout(w, Put(w, c, place), c)
  {
    assert w.at[c := place].Keys == w.at.Keys;
    OneHandle(w, cfg, Put(w, c, place), c);
  }

  lemma BornKeeps(w: World, cfg: Config, c: Client, place: Place)
    requires Inv(w, cfg) && (place == Held || place == Fresh)
    ensures Inv(BornStep(w, c, place), cfg)
    ensures OnlyAbout(w, BornStep(w, c, place), c)
  {
    if c !in w.at {
      var after := BornStep(w, c, place);
      assert after.log == (w.log + [Created(c)]) + [LeaseBegan(c, false)];
      Snoc(w.log, Created(c));
      Snoc(w.log + [Created(c)], LeaseBegan(c, false));
      assert HandleOk(w, c);
      assert after.at.Keys == w.at.Keys + {c};
      OneHandle(w, cfg, after, c);
    }
  }

  lemma GoneKeeps(w: World, cfg: Config, c: Client)
    requires Inv(w, cfg) && PlaceOf(w, c) == Some(Destroying)
    ensures Inv(Gone(w, c), cfg)
    ensures OnlyAbout(w, Gone(w, c), c)
  {
    Snoc(w.log, Destroyed(c));
    assert HandleOk(w, c);
    OneHandle(w, cfg, Gone(w, c), c);
  }

  lemma DiscardKeeps(w: World, cfg: Config, c: Client)
    requires Inv(w, cfg) && PlaceOf(w, c) == Some(Discarding)
    ensures Inv(DiscardStep(w, c), cfg)
    ensures OnlyAbout(w, DiscardStep(w, c), c)
  {
    Snoc(w.log, Destroyed(c));
    assert HandleOk(w, c);
    var i := FindNode(w.pool, c).value;
    NodeRemoved(w.pool, i);
    OneHandle(w, cfg, DiscardStep(w, c), c);
  }

  lemma TrackKeeps(w: World, cfg: Config, c: Client, alloc: bool)
    requires Inv(w, cfg) && PlaceOf(w, c) == Some(Fresh)
    ensures Inv(TrackStep(w, c, alloc), cfg)
    ensures OnlyAbout(w, TrackStep(w, c, alloc), c)
  {
    assert HandleOk(w, c);
    var after := TrackStep(w, c, alloc);
    assert after.at.Keys == w.at.Keys;
    forall d: Client
      ensures LeaseOf(after.leases, d) == if d == c && alloc then Some(Lease(c, false)) else LeaseOf(w.leases, d)
    {
      LeaseAppended(w.leases, Lease(c, false), d);
    }
    LeaseAppended(w.leases, Lease(c, false), c);
    OneHandle(w, cfg, after, c);
  }

  lemma PerformKeeps(w: World, cfg: Config, c: Client)
    requires Inv(w, cfg) && PlaceOf(w, c) == Some(Held)
    ensures Inv(PerformStep(w, c), cfg)
    ensures OnlyAbout(w, PerformStep(w, c), c)
  {
    assert HandleOk(w, c);
    var after := PerformStep(w, c);
    assert after.log == (w.log + [AppPerform(c)]) + [RealPerform(c)];
    Snoc(w.log, AppPerform(c));
    Snoc(w.log + [AppPerform(c)], RealPerform(c));
    assert after.at.Keys == w.at.Keys;
    match FindLease(w.leases, c)
    case None =>
      OneHandle(w, cfg, after, c);
    case Some(i) =>
      var l := w.leases[i].(performed := true);
      forall d: Client ensures LeaseOf(after.leases, d) == if d == c then Some(l) else LeaseOf(w.leases, d) {
        LeaseUpdated(w.leases, i, l, d);
      }
      LeaseUpdated(w.leases, i, l, c);
      OneHandle(w, cfg, after, c);
  }

  lemma RealPerformReads(log: seq<Event>, c: Client)
    ensures var more := log + [RealPerform(c)];
      && Lawful(more) == Lawful(log) && Live(more) == Live(log)
      && forall d: Client :: Counts(more, d) ==
           if d == c then Counts(log, d).(runs := Counts(log, d).runs + 1) else Counts(log, d)
  {
    Snoc(log, RealPerform(c));
  }

  lemma DecideKeeps(w: World, cfg: Config, c: Client)
    requires Inv(w, cfg) && PlaceOf(w, c) == Some(Failed)
    ensures Inv(DecideStep(w, c), cfg)
    ensures OnlyAbout(w, DecideStep(w, c), c)
  {
    hide Lawful, Live, Counts;
    assert HandleOk(w, c);
    var after := DecideStep(w, c);
    match FindNode(w.pool, c)
    case None => PutKeeps(w, cfg, c, Held);
    case Some(i) =>
      if !w.pool[i].reused {
        PutKeeps(w, cfg, c, Held);
      } else {
        var n := w.pool[i].(reused := false);
        RealPerformReads(w.log, c);
        forall d: Client ensures NodeOf(after.pool, d) == if d == c then Some(n) else NodeOf(w.pool, d) {
          NodeUpdated(w.pool, i, n, d);
        }
        NodeUpdated(w.pool, i, n, c);
        assert after.at.Keys == w.at.Keys;
        OneHandle(w, cfg, after, c);
      }
  }

  lemma CleanupKeeps(w: World, cfg: Config, c: Client, persistent: bool)
    requires Inv(w, cfg) && PlaceOf(w, c) == Some(Held)
    ensures Inv(CleanupStep(w, c, persistent), cfg)
    ensures OnlyAbout(w, CleanupStep(w, c, persistent), c)
  {
    assert HandleOk(w, c);
    var after := CleanupStep(w, c, persistent);
    assert after.at.Keys == w.at.Keys;
    DropLeaseReads(w.leases, c);
    match FindNode(w.pool, c)
    case None => OneHandle(w, cfg, after, c);
    case Some(i) =>
      if !persistent {
        NodeRemoved(w.pool, i);
        OneHandle(w, cfg, after, c);
      } else {
        var n := ReturnedNode(w.pool[i], TickOf(w));
        forall d: Client ensures NodeOf(after.pool, d) == if d == c then Some(n) else NodeOf(w.pool, d) {
          NodeUpdated(w.pool, i, n, d);
        }
        NodeUpdated(w.pool, i, n, c);
        OneHandle(w, cfg, after, c);
      }
  }

  lemma DropLeaseReads(leases: seq<Lease>, c: Client)
    requires DistinctLeases(leases)
    ensures DistinctLeases(DropLease(leases, c))
    ensures forall d: Client :: LeaseOf(DropLease(leases, c), d) == if d == c then None else LeaseOf(leases, d)
  {
    match FindLease(leases, c)
    case None =>
    case Some(i) =>
      forall d: Client ensures LeaseOf(Without(leases, i), d) == if d == c then None else LeaseOf(leases, d) {
        LeaseRemoved(leases, i, d);
      }
      LeaseRemoved(leases, i, c);
  }

  /** The idle node found by init becomes the caller's. */
  lemma TakeKeeps(r: World, cfg: Config, i: nat)
    requires Inv(r, cfg) && i < |r.pool| && Idle(r.pool[i])
    ensures var n := r.pool[i];
      var after := Put(SetNode(r, i, TakenNode(n, TickOf(r))), n.client, Taken)
                     .(stamps := r.stamps[n.client := r.now], log := r.log + [LeaseBegan(n.client, true)]);
      Inv(after, cfg) && OnlyAbout(r, after, n.client)
  {
    var n := r.pool[i];
    var c := n.client;
    var after := Put(SetNode(r, i, TakenNode(n, TickOf(r))), c, Taken)
                   .(stamps := r.stamps[c := r.now], log := r.log + [LeaseBegan(c, true)]);
    NodeAt(r.pool, i);
    assert HandleOk(r, c);
    Snoc(r.log, LeaseBegan(c, true));
    forall d: Client ensures NodeOf(after.pool, d) == if d == c then Some(TakenNode(n, TickOf(r))) else NodeOf(r.pool, d) {
      NodeUpdated(r.pool, i, TakenNode(n, TickOf(r)), d);
    }
    NodeUpdated(r.pool, i, TakenNode(n, TickOf(r)), c);
    assert after.at.Keys == r.at.Keys;
    OneHandle(r, cfg, after, c);
  }

  lemma InitTakeKeeps(w: World, cfg: Config, target: Endpoint, healthy: bool)
    requires Inv(w, cfg)
    ensures Inv(InitTakeStep(w, cfg, target, healthy), cfg)
  {
    ReapNowKeeps(w, cfg);
    var r := ReapNow(w, cfg.timeout);
    match FindIdle(r.pool, target)
    case None =>
    case Some(i) =>
      if !healthy {
        RemoveShrinks(r.pool, i);
        ShedKeeps(r, cfg, Without(r.pool, i), [r.pool[i].client]);
      } else {
        TakeKeeps(r, cfg, i);
      }
  }

  lemma PoolKeeps(s: World, cfg: Config, c: Client, e: Endpoint)
    requires Inv(s, cfg) && PlaceOf(s, c) == Some(Leaving) && |s.pool| < cfg.maxPool
    ensures var after := Put(s, c, Pooled).(pool := s.pool + [NewIdle(c, e, TickOf(s))], stamps := s.stamps[c := s.now]);
      Inv(after, cfg) && OnlyAbout(s, after, c)
  {
    var n := NewIdle(c, e, TickOf(s));
    var after := Put(s, c, Pooled).(pool := s.pool + [n], stamps := s.stamps[c := s.now]);
    assert HandleOk(s, c);
    forall d: Client ensures NodeOf(after.pool, d) == if d == c then Some(n) else NodeOf(s.pool, d) {
      NodeAppended(s.pool, n, d);
    }
    NodeAppended(s.pool, n, c);
    assert after.at.Keys == s.at.Keys;
    OneHandle(s, cfg, after, c);
  }

  lemma LeaveKeeps(w: World, cfg: Config, c: Client, ep: Option<Endpoint>, alloc: bool)
    requires Inv(w, cfg) && PlaceOf(w, c) == Some(Leaving)
    ensures Inv(LeaveStep(w, cfg, c, ep, alloc), cfg)
  {
    hide Lawful, Live, Counts, MakeRoom, Reaped, ReapedClients;
    assert HandleOk(w, c);
    match ep
    case None => PutKeeps(w, cfg, c, Destroying);
    case Some(e) =>
      ReapNowKeeps(w, cfg);
      var r := ReapNow(w, cfg.timeout);
      TicksFit(r, cfg);
      MakeRoomShrinks(r.pool, cfg.maxPool);
      var room := MakeRoom(r.pool, cfg.maxPool);
      assert HandleOk(r, c);
      StillLeaving(w, r, ReapedClients(w.pool, TickOf(w), cfg.timeout), c);
      ShedKeeps(r, cfg, room.pool, room.evicted);
      var s := Shed(r, room.pool, room.evicted);
      StillLeaving(r, s, room.evicted, c);
      assert HandleOk(s, c);
      if !room.ok || !alloc {
        PutKeeps(s, cfg, c, Destroying);
      } else {
        PoolKeeps(s, cfg, c, e);
      }
  }

  /** A handle in transit is not one of the dropped ones. */
  lemma StillLeaving(w: World, after: World, dropped: seq<Client>, c: Client)
    requires PlaceOf(w, c) == Some(Leaving) && (forall d | d in dropped :: NodeOf(w.pool, d).Some?)
    requires HandleOk(w, c) && after == Shed(w, after.pool, dropped)
    ensures PlaceOf(after, c) == Some(Leaving)
  {
    assert NodeOf(w.pool, c).None?;
  }

  lemma TickKeeps(w: World, cfg: Config, ticks: nat)
    requires Inv(w, cfg)
    ensures Inv(w.(now := w.now + ticks), cfg)
  {
    var after := w.(now := w.now + ticks);
    forall c: Client ensures HandleOk(after, c) {
      assert HandleOk(w, c);
    }
  }

  lemma MarkReapKeeps(w: World, cfg: Config)
    requires Inv(w, cfg)
    ensures Inv(w.(lastReap := w.now), cfg)
  {
    var after := w.(lastReap := w.now);
    forall c: Client ensures HandleOk(after, c) {
      assert HandleOk(w, c);
    }
  }

  /** A handle in use goes on to another place in its user's hands. */
  lemma MoveKeeps(w: World, cfg: Config, c: Client, place: Place)
    requires Inv(w, cfg) && c in w.at
    requires if w.at[c] == Taken then place == Held || place == Discarding
             else (w.at[c] == Attempting || w.at[c] == Retrying) && (place == Held || place == Failed)
    ensures Inv(Put(w, c, place), cfg)
    ensures OnlyAbout(w, Put(w, c, place), c)
  {
    hide Lawful, Live, Counts;
    assert HandleOk(w, c);
    PutKeeps(w, cfg, c, place);
  }

  lemma ApplyKeeps(w: World, cfg: Config, step: Step)
    requires Inv(w, cfg)
    ensures Inv(Apply(w, cfg, step), cfg)
  {
    hide Inv, InitTakeStep, DiscardStep, BornStep, TrackStep, PerformStep, DecideStep, CleanupStep, LeaveStep, ReapNow;
    match step
    case Tick(ticks) => TickKeeps(w, cfg, ticks);
    case ReapTimer => ReapNowKeeps(w, cfg); MarkReapKeeps(ReapNow(w, cfg.timeout), cfg);
    case InitBypass(c) => BornKeeps(w, cfg, c, Held);
    case InitTake(target, healthy) => InitTakeKeeps(w, cfg, target, healthy);
    case UrlSet(c, ok) =>
      if PlaceOf(w, c) == Some(Taken) { MoveKeeps(w, cfg, c, if ok then Held else Discarding); }
    case Discard(c) => if PlaceOf(w, c) == Some(Discarding) { DiscardKeeps(w, cfg, c); }
    case InitNew(c) => BornKeeps(w, cfg, c, Fresh);
    case Track(c, alloc) => if PlaceOf(w, c) == Some(Fresh) { TrackKeeps(w, cfg, c, alloc); }
    case Perform(c) => if PlaceOf(w, c) == Some(Held) { PerformKeeps(w, cfg, c); }
    case Outcome(c, ok) =>
      if PlaceOf(w, c) == Some(Attempting) { MoveKeeps(w, cfg, c, if ok then Held else Failed); }
    case Decide(c) => if PlaceOf(w, c) == Some(Failed) { DecideKeeps(w, cfg, c); }
    case RetryDone(c) => if PlaceOf(w, c) == Some(Retrying) { MoveKeeps(w, cfg, c, Held); }
    case Cleanup(c, persistent) => if PlaceOf(w, c) == Some(Held) { CleanupKeeps(w, cfg, c, persistent); }
    case Leave(c, ep, alloc) => if PlaceOf(w, c) == Some(Leaving) { LeaveKeeps(w, cfg, c, ep, alloc); }
    case Destroy(c) => if PlaceOf(w, c) == Some(Destroying) { GoneKeeps(w, cfg, c); }
  }

  lemma {:induction false} RunKeeps(cfg: Config, steps: seq<Step>)
    ensures Inv(Run(EMPTY, cfg, steps), cfg)
  {
    if steps == [] {
      forall c: Client ensures HandleOk(EMPTY, c) {
      }
    } else {
      var before := steps[..|steps| - 1];
      RunKeeps(cfg, before);
      ApplyKeeps(Run(EMPTY, cfg, before), cfg, steps[|steps| - 1]);
    }
  }
}
