/**
 The reuse layer as a state machine over its locked regions and the calls into the real client
 (components/http_reuse/esp_http_client_reuse.c, lines 491-713).

 at is the ledger of who has each live handle: the application, a wrapper that is half way
 through, or the pool. Applications use a handle from one task at a time and clean it up once, so
 perform and cleanup start only on a handle the application holds. Any number of handles move at
 the same time; the reaper and the clock move in between.
 */
module HttpWorld {
  import opened Common
  import opened HttpPool

  datatype Place =
    | Held                    // returned by init, not being worked on
    | Taken | Discarding      // inside init, after a pool hit: url not yet set / setting it failed
    | Fresh                   // inside init, newly created, lease not yet recorded
    | Attempting | Failed | Retrying    // inside perform: first try / it failed / second try
    | Leaving | Destroying    // inside cleanup: may be pooled / about to be destroyed
    | Pooled                  // idle in the pool

  datatype Event =
    | Created(c: Client)
    | Destroyed(c: Client)
    | LeaseBegan(c: Client, hit: bool)
    | AppPerform(c: Client)
    | RealPerform(c: Client)

  datatype World = World(
    pool: seq<Node>, leases: seq<Lease>, at: map<Client, Place>,
    now: nat, stamps: map<Client, nat>, lastReap: nat, log: seq<Event>)

  const EMPTY := World([], [], map[], 0, map[], 0, [])

  datatype Step =
    | Tick(ticks: nat)
    | ReapTimer
    | InitBypass(c: Client)                        // a handle made without keep-alive or a usable endpoint
    | InitTake(target: Endpoint, healthy: bool)    // healthy: the real client reports no socket error
    | UrlSet(c: Client, ok: bool)
    | Discard(c: Client)
    | InitNew(c: Client)
    | Track(c: Client, alloc: bool)
    | Perform(c: Client)
    | Outcome(c: Client, ok: bool)
    | Decide(c: Client)
    | RetryDone(c: Client)
    | Cleanup(c: Client, persistent: bool)
    | Leave(c: Client, ep: Option<Endpoint>, alloc: bool)
    | Destroy(c: Client)

  function TickOf(w: World): (t: nat)
    ensures t < WORD
  {
    w.now % WORD
  }

  function PlaceOf(w: World, c: Client): Option<Place> {
    if c in w.at then Some(w.at[c]) else None
  }

  function Destroys(cs: seq<Client>): seq<Event> {
    seq(|cs|, i requires 0 <= i < |cs| => Destroyed(cs[i]))
  }

  /** The pool loses idle clients, each of which is destroyed. */
  function Shed(w: World, pool: seq<Node>, dropped: seq<Client>): World {
    w.(pool := pool, at := w.at - (set c | c in dropped), log := w.log + Destroys(dropped))
  }

  function ReapNow(w: World, timeout: nat): World {
    if !WellTicked(w.pool) then w
    else Shed(w, Reaped(w.pool, TickOf(w), timeout), ReapedClients(w.pool, TickOf(w), timeout))
  }

  function Gone(w: World, c: Client): World {
    w.(at := w.at - {c}, log := w.log + [Destroyed(c)])
  }

  function Put(w: World, c: Client, place: Place): World {
    w.(at := w.at[c := place])
  }

  function SetNode(w: World, i: nat, n: Node): World
    requires i < |w.pool|
  {
    w.(pool := w.pool[i := n])
  }

  // ---- init ----

  function InitTakeStep(w: World, cfg: Config, target: Endpoint, healthy: bool): World {
    var r := ReapNow(w, cfg.timeout);
    match FindIdle(r.pool, target)
    case None => r
    case Some(i) =>
      var n := r.pool[i];
      if !healthy then Shed(r, Without(r.pool, i), [n.client])
      else
        Put(SetNode(r, i, TakenNode(n, TickOf(r))), n.client, Taken)
          .(stamps := r.stamps[n.client := r.now], log := r.log + [LeaseBegan(n.client, true)])
  }

  /** pool_detach_and_destroy_client_locked. */
  function DiscardStep(w: World, c: Client): World {
    var out := Gone(w, c);
    match FindNode(w.pool, c)
    case Some(i) => out.(pool := Without(w.pool, i))
    case None => out
  }

  function BornStep(w: World, c: Client, place: Place): World {
    if c in w.at then w
    else w.(at := w.at[c := place], log := w.log + [Created(c), LeaseBegan(c, false)])
  }

  function TrackStep(w: World, c: Client, alloc: bool): World {
    var held := Put(w, c, Held);
    if FindLease(w.leases, c).Some? || !alloc then held
    else held.(leases := w.leases + [Lease(c, false)])
  }

  // ---- perform ----

  function PerformStep(w: World, c: Client): World {
    var out := Put(w, c, Attempting).(log := w.log + [AppPerform(c), RealPerform(c)]);
    match FindLease(w.leases, c)
    case None => out
    case Some(i) => out.(leases := w.leases[i := w.leases[i].(performed := true)])
  }

  function DecideStep(w: World, c: Client): World {
    match FindNode(w.pool, c)
    case None => Put(w, c, Held)
    case Some(i) =>
      if !w.pool[i].reused then Put(w, c, Held)
      else Put(SetNode(w, i, w.pool[i].(reused := false)), c, Retrying).(log := w.log + [RealPerform(c)])
  }

  // ---- cleanup ----

  function DropLease(leases: seq<Lease>, c: Client): seq<Lease> {
    match FindLease(leases, c) case None => leases case Some(i) => Without(leases, i)
  }

  function CleanupStep(w: World, c: Client, persistent: bool): World {
    var performed := match LeaseOf(w.leases, c) case None => false case Some(l) => l.performed;
    var freed := w.(leases := DropLease(w.leases, c));
    match FindNode(w.pool, c)
    case Some(i) =>
      if !persistent then Put(freed, c, Destroying).(pool := Without(w.pool, i))
      else
        Put(SetNode(freed, i, ReturnedNode(w.pool[i], TickOf(w))),
            c, Pooled).(stamps := w.stamps[c := w.now])
    case None =>
      if !persistent || !performed then Put(freed, c, Destroying) else Put(freed, c, Leaving)
  }

  function LeaveStep(w: World, cfg: Config, c: Client, ep: Option<Endpoint>, alloc: bool): World {
    match ep
    case None => Put(w, c, Destroying)
    case Some(e) =>
      var r := ReapNow(w, cfg.timeout);
      var room := MakeRoom(r.pool, cfg.maxPool);
      var s := Shed(r, room.pool, room.evicted);
      if !room.ok || !alloc then Put(s, c, Destroying)
      else
        Put(s, c, Pooled).(pool := room.pool + [NewIdle(c, e, TickOf(s))], stamps := s.stamps[c := s.now])
  }

  // ---- Steps ----

  function Apply(w: World, cfg: Config, step: Step): World {
    match step
    case Tick(ticks) => w.(now := w.now + ticks)
    case ReapTimer => ReapNow(w, cfg.timeout).(lastReap := w.now)
    case InitBypass(c) => BornStep(w, c, Held)
    case InitTake(target, healthy) => InitTakeStep(w, cfg, target, healthy)
    case UrlSet(c, ok) => if PlaceOf(w, c) == Some(Taken) then Put(w, c, if ok then Held else Discarding) else w
    case Discard(c) => if PlaceOf(w, c) == Some(Discarding) then DiscardStep(w, c) else w
    case InitNew(c) => BornStep(w, c, Fresh)
    case Track(c, alloc) => if PlaceOf(w, c) == Some(Fresh) then TrackStep(w, c, alloc) else w
    case Perform(c) => if PlaceOf(w, c) == Some(Held) then PerformStep(w, c) else w
    case Outcome(c, ok) =>
      if PlaceOf(w, c) == Some(Attempting) then Put(w, c, if ok then Held else Failed) else w
    case Decide(c) => if PlaceOf(w, c) == Some(Failed) then DecideStep(w, c) else w
    case RetryDone(c) => if PlaceOf(w, c) == Some(Retrying) then Put(w, c, Held) else w
    case Cleanup(c, persistent) => if PlaceOf(w, c) == Some(Held) then CleanupStep(w, c, persistent) else w
    case Leave(c, ep, alloc) => if PlaceOf(w, c) == Some(Leaving) then LeaveStep(w, cfg, c, ep, alloc) else w
    case Destroy(c) => if PlaceOf(w, c) == Some(Destroying) then Gone(w, c) else w
  }

  function Run(w: World, cfg: Config, steps: seq<Step>): World {
    if steps == [] then w else Apply(Run(w, cfg, steps[..|steps| - 1]), cfg, steps[|steps| - 1])
  }

  // ---- What the log says ----

  ghost function Last(log: seq<Event>): Event requires log != [] { log[|log| - 1] }
  ghost function Front(log: seq<Event>): seq<Event> requires log != [] { log[..|log| - 1] }

  /** Handles created and not destroyed since. */
  ghost function Live(log: seq<Event>): set<Client> {
    if log == [] then {}
    else match Last(log)
      case Created(c) => Live(Front(log)) + {c}
      case Destroyed(c) => Live(Front(log)) - {c}
      case _ => Live(Front(log))
  }

  /** Only dead handles are created and only live ones destroyed. */
  ghost predicate Lawful(log: seq<Event>) {
    log == [] || (
      Lawful(Front(log)) && match Last(log)
        case Created(c) => c !in Live(Front(log))
        case Destroyed(c) => c in Live(Front(log))
        case _ => true)
  }

  datatype Tally = Tally(hit: bool, app: nat, runs: nat)

  /** Performs of the handle since its current lease began: asked for by the application, and really run. */
  ghost function Counts(log: seq<Event>, c: Client): Tally {
    if log == [] then Tally(false, 0, 0)
    else
      var before := Counts(Front(log), c);
      match Last(log)
      case LeaseBegan(d, hit) => if d == c then Tally(hit, 0, 0) else before
      case AppPerform(d) => if d == c then before.(app := before.app + 1) else before
      case RealPerform(d) => if d == c then before.(runs := before.runs + 1) else before
      case _ => before
  }

  // ---- Invariant ----

  ghost predicate InUse(p: Place) {
    p.Held? || p.Taken? || p.Discarding? || p.Attempting? || p.Failed? || p.Retrying?
  }

  /** The pool, the lease list and the ledger agree about handle c. */
  ghost predicate PlaceOk(w: World, c: Client) {
    && (match NodeOf(w.pool, c)
        case Some(n) =>
          && c in w.at && n.persistent && n.client == c
          && LeaseOf(w.leases, c).None?
          && (if n.leased then InUse(w.at[c]) else w.at[c] == Pooled && !n.reused)
        case None =>
          c in w.at ==> w.at[c] != Pooled && w.at[c] != Taken && w.at[c] != Discarding)
    && (LeaseOf(w.leases, c).Some? ==>
          c in w.at && (w.at[c].Held? || w.at[c].Attempting? || w.at[c].Failed? || w.at[c].Retrying?))
  }

  /**
   Real performs exceed the application's by at most one, and only in a lease that was a pool hit;
   the lease entry remembers whether the application has performed.
   */
  ghost predicate TallyOk(w: World, c: Client) {
    c in w.at ==>
      var t := Counts(w.log, c);
      && t.app <= t.runs <= t.app + (if t.hit then 1 else 0)
      && (NodeOf(w.pool, c).Some? && NodeOf(w.pool, c).value.reused ==> t.hit && t.runs == t.app)
      && (w.at[c] == Fresh ==> t.app == 0)
      && (LeaseOf(w.leases, c).Some? ==> (LeaseOf(w.leases, c).value.performed <==> t.app > 0))
      && (w.at[c] == Leaving ==> t.app > 0)
  }

  ghost predicate TimeOk(w: World, c: Client) {
    NodeOf(w.pool, c).Some? ==>
      && c in w.stamps && w.stamps[c] <= w.now
      && NodeOf(w.pool, c).value.lastUpdate == w.stamps[c] % WORD
  }

  ghost predicate HandleOk(w: World, c: Client) {
    PlaceOk(w, c) && TallyOk(w, c) && TimeOk(w, c)
  }

  ghost predicate Inv(w: World, cfg: Config) {
    && DistinctClients(w.pool) && DistinctLeases(w.leases)
    && |w.pool| <= cfg.maxPool
    && w.at.Keys == Live(w.log) && Lawful(w.log)
    && w.lastReap <= w.now
    && forall c: Client :: HandleOk(w, c)
  }
}
