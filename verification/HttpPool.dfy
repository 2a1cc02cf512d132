/**
 The idle pool and the lease list of the HTTP client reuse layer
 (components/http_reuse/esp_http_client_reuse.c): endpoint matching, idle reaping and eviction on
 32-bit ticks, lookup, insertion and removal. Lists are sequences from head to tail.
 */
module HttpPool {
  import opened Common

  /** A client handle: the address esp_http_client_init returned. */
  type Client = nat

  datatype Transport = Tcp | Ssl
  datatype Endpoint = Endpoint(transport: Transport, host: string, port: int)

  datatype Node = Node(client: Client, endpoint: Endpoint, lastUpdate: nat,
                       persistent: bool, leased: bool, reused: bool)

  datatype Lease = Lease(client: Client, performed: bool)

  /** maxPool is CONFIG_HTTP_REUSE_MAX_POOL; timeout is the idle timeout in ticks. */
  datatype Config = Config(maxPool: nat, timeout: nat)

  const MAX_TICK := WORD - 1   // portMAX_DELAY

  // ---- Endpoints ----

  function Lower(ch: char): char {
    if 'A' <= ch <= 'Z' then (ch as int + 32) as char else ch
  }

  predicate SameHost(a: string, b: string) {
    |a| == |b| && forall i | 0 <= i < |a| :: Lower(a[i]) == Lower(b[i])
  }

  predicate Matches(a: Endpoint, b: Endpoint) {
    a.transport == b.transport && a.port == b.port && SameHost(a.host, b.host)
  }

  // ---- Ticks ----

  /** Unsigned 32-bit subtraction of two tick values. */
  function Elapsed(now: nat, then_: nat): nat
    requires now < WORD && then_ < WORD
  {
    (now - then_) % WORD
  }

  /** As long as less than 2^32 ticks really passed, the wrapped difference is the true age. */
  lemma ElapsedIsAge(now: nat, stamp: nat)
    requires stamp <= now && now - stamp < WORD
    ensures Elapsed(now % WORD, stamp % WORD) == now - stamp
  {
  }

  predicate Idle(n: Node) { n.persistent && !n.leased }

  predicate WellTicked(pool: seq<Node>) {
    forall i | 0 <= i < |pool| :: pool[i].lastUpdate < WORD
  }

  // ---- Lookup ----

  function FindNode(pool: seq<Node>, c: Client): (r: Option<nat>)
    ensures r.Some? ==> r.value < |pool| && pool[r.value].client == c
    ensures r.Some? ==> forall j | 0 <= j < r.value :: pool[j].client != c
    ensures r.None? ==> forall j | 0 <= j < |pool| :: pool[j].client != c
  {
    if pool == [] then None
    else if pool[0].client == c then Some(0)
    else match FindNode(pool[1..], c)
      case None => None
      case Some(i) => assert forall j | 1 <= j < |pool| :: pool[j] == pool[1..][j - 1]; Some(i + 1)
  }

  function NodeOf(pool: seq<Node>, c: Client): Option<Node> {
    match FindNode(pool, c) case None => None case Some(i) => Some(pool[i])
  }

  function FindLease(leases: seq<Lease>, c: Client): (r: Option<nat>)
    ensures r.Some? ==> r.value < |leases| && leases[r.value].client == c
    ensures r.Some? ==> forall j | 0 <= j < r.value :: leases[j].client != c
    ensures r.None? ==> forall j | 0 <= j < |leases| :: leases[j].client != c
  {
    if leases == [] then None
    else if leases[0].client == c then Some(0)
    else match FindLease(leases[1..], c)
      case None => None
      case Some(i) => assert forall j | 1 <= j < |leases| :: leases[j] == leases[1..][j - 1]; Some(i + 1)
  }

  function LeaseOf(leases: seq<Lease>, c: Client): Option<Lease> {
    match FindLease(leases, c) case None => None case Some(i) => Some(leases[i])
  }

  ghost predicate DistinctClients(pool: seq<Node>) {
    forall i, j | 0 <= i < j < |pool| :: pool[i].client != pool[j].client
  }

  ghost predicate DistinctLeases(leases: seq<Lease>) {
    forall i, j | 0 <= i < j < |leases| :: leases[i].client != leases[j].client
  }

  lemma NodeAt(pool: seq<Node>, i: nat)
    requires DistinctClients(pool) && i < |pool|
    ensures NodeOf(pool, pool[i].client) == Some(pool[i]) && FindNode(pool, pool[i].client) == Some(i)
  {
  }

  lemma LeaseAt(leases: seq<Lease>, i: nat)
    requires DistinctLeases(leases) && i < |leases|
    ensures LeaseOf(leases, leases[i].client) == Some(leases[i])
  {
  }

  function Without<T>(s: seq<T>, i: nat): seq<T>
    requires i < |s|
  {
    s[..i] + s[i + 1..]
  }

  lemma NodeUpdated(pool: seq<Node>, i: nat, n: Node, c: Client)
    requires DistinctClients(pool) && i < |pool| && n.client == pool[i].client
    ensures DistinctClients(pool[i := n])
    ensures NodeOf(pool[i := n], c) == if c == n.client then Some(n) else NodeOf(pool, c)
  {
    var after := pool[i := n];
    match FindNode(pool, c)
    case Some(k) => NodeAt(after, k);
    case None =>
  }

  lemma NodeAppended(pool: seq<Node>, n: Node, c: Client)
    requires DistinctClients(pool) && NodeOf(pool, n.client).None?
    ensures DistinctClients(pool + [n])
    ensures NodeOf(pool + [n], c) == if c == n.client then Some(n) else NodeOf(pool, c)
  {
    var after := pool + [n];
    if c == n.client {
      NodeAt(after, |pool|);
    } else {
      match FindNode(pool, c)
      case Some(k) => NodeAt(after, k);
      case None =>
    }
  }

  lemma LeaseRemoved(leases: seq<Lease>, i: nat, c: Client)
    requires DistinctLeases(leases) && i < |leases|
    ensures DistinctLeases(Without(leases, i))
    ensures LeaseOf(Without(leases, i), c) == if c == leases[i].client then None else LeaseOf(leases, c)
  {
    var after := Without(leases, i);
    assert forall k | 0 <= k < |after| :: after[k] == leases[if k < i then k else k + 1];
    match FindLease(leases, c)
    case None =>
    case Some(k) => if k != i { LeaseAt(after, if k < i then k else k - 1); }
  }

  lemma LeaseUpdated(leases: seq<Lease>, i: nat, l: Lease, c: Client)
    requires DistinctLeases(leases) && i < |leases| && l.client == leases[i].client
    ensures DistinctLeases(leases[i := l])
    ensures LeaseOf(leases[i := l], c) == if c == l.client then Some(l) else LeaseOf(leases, c)
  {
    var after := leases[i := l];
    match FindLease(leases, c)
    case Some(k) => LeaseAt(after, k);
    case None =>
  }

  lemma LeaseAppended(leases: seq<Lease>, l: Lease, c: Client)
    requires DistinctLeases(leases) && LeaseOf(leases, l.client).None?
    ensures DistinctLeases(leases + [l])
    ensures LeaseOf(leases + [l], c) == if c == l.client then Some(l) else LeaseOf(leases, c)
  {
    var after := leases + [l];
    if c == l.client {
      LeaseAt(after, |leases|);
    } else {
      match FindLease(leases, c)
      case Some(k) => LeaseAt(after, k);
      case None =>
    }
  }

  // ---- A pool some idle clients were dropped from ----

  /** after is before without the dropped clients, each of which was idle in the pool and is dropped once. */
  ghost predicate Shrunk(before: seq<Node>, after: seq<Node>, dropped: seq<Client>) {
    && DistinctClients(after) && Distinct(dropped) && |after| <= |before|
    && (forall i | 0 <= i < |after| :: after[i] in before)
    && (forall c: Client :: NodeOf(after, c) == if c in dropped then None else NodeOf(before, c))
    && (forall c | c in dropped :: NodeOf(before, c).Some? && Idle(NodeOf(before, c).value))
  }

  lemma ShrunkRefl(pool: seq<Node>)
    requires DistinctClients(pool)
    ensures Shrunk(pool, pool, [])
  {
  }

  lemma ShrunkTrans(a: seq<Node>, b: seq<Node>, c: seq<Node>, d1: seq<Client>, d2: seq<Client>)
    requires Shrunk(a, b, d1) && Shrunk(b, c, d2)
    ensures Shrunk(a, c, d1 + d2)
  {
    forall x | x in d2 ensures x !in d1 {
      assert NodeOf(b, x).Some?;
    }
    forall i, j | 0 <= i < j < |d1 + d2| ensures (d1 + d2)[i] != (d1 + d2)[j] {
      if i < |d1| <= j { assert (d1 + d2)[j] in d2; }
    }
    forall x: Client ensures NodeOf(c, x) == if x in d1 + d2 then None else NodeOf(a, x) {
    }
    forall x | x in d1 + d2 ensures NodeOf(a, x).Some? && Idle(NodeOf(a, x).value) {
      if x in d2 { assert NodeOf(b, x).Some?; }
    }
  }

  lemma RemoveShrinks(pool: seq<Node>, i: nat)
    requires DistinctClients(pool) && i < |pool| && Idle(pool[i])
    ensures Shrunk(pool, Without(pool, i), [pool[i].client])
  {
    NodeRemoved(pool, i);
    NodeAt(pool, i);
  }

  lemma NodeRemoved(pool: seq<Node>, i: nat)
    requires DistinctClients(pool) && i < |pool|
    ensures DistinctClients(Without(pool, i))
    ensures forall c: Client :: NodeOf(Without(pool, i), c) == if c == pool[i].client then None else NodeOf(pool, c)
  {
    var after := Without(pool, i);
    assert forall k | 0 <= k < |after| :: after[k] == pool[if k < i then k else k + 1];
    forall c: Client ensures NodeOf(after, c) == if c == pool[i].client then None else NodeOf(pool, c) {
      match FindNode(pool, c)
      case None =>
      case Some(k) => if k != i { NodeAt(after, if k < i then k else k - 1); }
    }
  }

  // ---- Reaping ----

  /** The reaper leaves this node alone. */
  predicate Keeps(n: Node, tick: nat, timeout: nat)
    requires tick < WORD && n.lastUpdate < WORD
  {
    !Idle(n) || Elapsed(tick, n.lastUpdate) < timeout
  }

  function Reaped(pool: seq<Node>, tick: nat, timeout: nat): seq<Node>
    requires tick < WORD && WellTicked(pool)
  {
    if pool == [] then []
    else if Keeps(pool[0], tick, timeout) then [pool[0]] + Reaped(pool[1..], tick, timeout)
    else Reaped(pool[1..], tick, timeout)
  }

  /** The clients the reaper destroys, in the order it meets them. */
  function ReapedClients(pool: seq<Node>, tick: nat, timeout: nat): seq<Client>
    requires tick < WORD && WellTicked(pool)
  {
    if pool == [] then []
    else if Keeps(pool[0], tick, timeout) then ReapedClients(pool[1..], tick, timeout)
    else [pool[0].client] + ReapedClients(pool[1..], tick, timeout)
  }

  /** What the reaper does with the nodes from the i-th on, by what it does with that one. */
  lemma ReapedAt(pool: seq<Node>, i: nat, tick: nat, timeout: nat)
    requires tick < WORD && WellTicked(pool) && i < |pool|
    ensures WellTicked(pool[i..]) && WellTicked(pool[i + 1..])
    ensures Reaped(pool[i..], tick, timeout)
         == (if Keeps(pool[i], tick, timeout) then [pool[i]] else []) + Reaped(pool[i + 1..], tick, timeout)
    ensures ReapedClients(pool[i..], tick, timeout)
         == (if Keeps(pool[i], tick, timeout) then [] else [pool[i].client]) + ReapedClients(pool[i + 1..], tick, timeout)
  {
    assert pool[i..][1..] == pool[i + 1..];
    var kept, gone := Reaped(pool[i + 1..], tick, timeout), ReapedClients(pool[i + 1..], tick, timeout);
    assert [] + kept == kept && [] + gone == gone;
  }

  lemma {:induction false} ReapedHas(pool: seq<Node>, tick: nat, timeout: nat, n: Node)
    requires tick < WORD && WellTicked(pool)
    ensures n in Reaped(pool, tick, timeout) <==> n in pool && Keeps(n, tick, timeout)
  {
    if pool != [] {
      ReapedHas(pool[1..], tick, timeout, n);
    }
  }

  lemma KeepFirst(n: Node, rest: seq<Node>, kept: seq<Node>, gone: seq<Client>)
    requires DistinctClients([n] + rest) && Shrunk(rest, kept, gone)
    ensures Shrunk([n] + rest, [n] + kept, gone)
  {
    FirstApart(n, rest, kept, gone);
    PrependNode(n, rest);
    PrependNode(n, kept);
    forall i | 0 <= i < |[n] + kept| ensures ([n] + kept)[i] in [n] + rest {
      if i > 0 { assert kept[i - 1] in rest; }
    }
  }

  lemma DropFirst(n: Node, rest: seq<Node>, kept: seq<Node>, gone: seq<Client>)
    requires DistinctClients([n] + rest) && Idle(n) && Shrunk(rest, kept, gone)
    ensures Shrunk([n] + rest, kept, [n.client] + gone)
  {
    FirstApart(n, rest, kept, gone);
    PrependNode(n, rest);
  }

  lemma FirstApart(n: Node, rest: seq<Node>, kept: seq<Node>, gone: seq<Client>)
    requires DistinctClients([n] + rest) && Shrunk(rest, kept, gone)
    ensures DistinctClients(rest)
    ensures NodeOf(rest, n.client).None? && NodeOf(kept, n.client).None? && n.client !in gone
  {
    assert forall j | 0 <= j < |rest| :: ([n] + rest)[j + 1] == rest[j];
    assert ([n] + rest)[0] == n;
  }

  lemma {:induction false} ReapShrinks(pool: seq<Node>, tick: nat, timeout: nat)
    requires tick < WORD && WellTicked(pool) && DistinctClients(pool)
    ensures Shrunk(pool, Reaped(pool, tick, timeout), ReapedClients(pool, tick, timeout))
  {
    if pool == [] {
    } else {
      var n := pool[0];
      var rest := pool[1..];
      assert pool == [n] + rest;
      ReapShrinks(rest, tick, timeout);
      var kept := Reaped(rest, tick, timeout);
      var gone := ReapedClients(rest, tick, timeout);
      if Keeps(n, tick, timeout) {
        KeepFirst(n, rest, kept, gone);
        assert Reaped(pool, tick, timeout) == [n] + kept;
        assert ReapedClients(pool, tick, timeout) == gone;
      } else {
        DropFirst(n, rest, kept, gone);
        assert Reaped(pool, tick, timeout) == kept;
        assert ReapedClients(pool, tick, timeout) == [n.client] + gone;
      }
    }
  }

  lemma PrependNode(n: Node, rest: seq<Node>)
    requires DistinctClients(rest) && NodeOf(rest, n.client).None?
    ensures DistinctClients([n] + rest)
    ensures forall c: Client :: NodeOf([n] + rest, c) == if c == n.client then Some(n) else NodeOf(rest, c)
  {
    var all := [n] + rest;
    NodeAt(all, 0);
    forall c: Client | c != n.client ensures NodeOf(all, c) == NodeOf(rest, c) {
      match FindNode(rest, c)
      case Some(k) => NodeAt(all, k + 1);
      case None =>
    }
  }

  // ---- Eviction ----

  datatype Best = Best(index: Option<nat>, ticks: nat)

  /** The scan for a victim over the first n nodes, starting from the largest tick value. */
  function Scan(pool: seq<Node>, n: nat): Best
    requires n <= |pool|
  {
    if n == 0 then Best(None, MAX_TICK)
    else
      var best := Scan(pool, n - 1);
      var node := pool[n - 1];
      if Idle(node) && node.lastUpdate < best.ticks then Best(Some(n - 1), node.lastUpdate) else best
  }

  function Oldest(pool: seq<Node>): Option<nat> {
    Scan(pool, |pool|).index
  }

  /** The victim is the first idle node with the least tick value; a node stamped with the largest one is never chosen. */
  lemma {:induction false} ScanIs(pool: seq<Node>, n: nat)
    requires n <= |pool| && WellTicked(pool)
    ensures var best := Scan(pool, n);
      && best.ticks <= MAX_TICK
      && (forall j | 0 <= j < n && Idle(pool[j]) :: best.ticks <= pool[j].lastUpdate)
      && (best.index.None? <==> best.ticks == MAX_TICK)
      && (best.index.Some? ==>
            && best.index.value < n && Idle(pool[best.index.value])
            && pool[best.index.value].lastUpdate == best.ticks
            && forall j | 0 <= j < best.index.value && Idle(pool[j]) :: best.ticks < pool[j].lastUpdate)
  {
    if n > 0 {
      ScanIs(pool, n - 1);
    }
  }

  /** Eviction finds no victim exactly when every idle node, if any, carries the largest tick value. */
  lemma OldestNoneIff(pool: seq<Node>)
    requires WellTicked(pool)
    ensures Oldest(pool).None? <==> forall j | 0 <= j < |pool| && Idle(pool[j]) :: pool[j].lastUpdate == MAX_TICK
  {
    ScanIs(pool, |pool|);
  }

  datatype Room = Room(ok: bool, pool: seq<Node>, evicted: seq<Client>)

  /** The eviction loop: one victim at a time until the pool is below its limit or no victim is left. */
  function MakeRoom(pool: seq<Node>, maxPool: nat): Room
    decreases |pool|
  {
    if |pool| < maxPool then Room(true, pool, [])
    else match Oldest(pool)
      case None => Room(false, pool, [])
      case Some(i) =>
        if i >= |pool| then Room(false, pool, [])
        else
          var rest := MakeRoom(Without(pool, i), maxPool);
          Room(rest.ok, rest.pool, [pool[i].client] + rest.evicted)
  }

  lemma {:induction false} MakeRoomShrinks(pool: seq<Node>, maxPool: nat)
    requires WellTicked(pool) && DistinctClients(pool)
    ensures var room := MakeRoom(pool, maxPool);
      Shrunk(pool, room.pool, room.evicted) && WellTicked(room.pool) && (room.ok <==> |room.pool| < maxPool)
    decreases |pool|
  {
    if |pool| < maxPool {
      ShrunkRefl(pool);
    } else {
      ScanIs(pool, |pool|);
      match Oldest(pool)
      case None => ShrunkRefl(pool);
      case Some(i) =>
        RemoveShrinks(pool, i);
        MakeRoomShrinks(Without(pool, i), maxPool);
        var rest := MakeRoom(Without(pool, i), maxPool);
        ShrunkTrans(pool, Without(pool, i), rest.pool, [pool[i].client], rest.evicted);
    }
  }

  /** It evicts no more than it must: one client for each place the pool was over its limit. */
  lemma {:induction false} MakeRoomIsMinimal(pool: seq<Node>, maxPool: nat)
    requires MakeRoom(pool, maxPool).ok
    ensures |MakeRoom(pool, maxPool).evicted| == if |pool| < maxPool then 0 else |pool| + 1 - maxPool
    decreases |pool|
  {
    if |pool| >= maxPool {
      MakeRoomIsMinimal(Without(pool, Oldest(pool).value), maxPool);
    }
  }

  // ---- Taking and inserting ----

  /** First idle node for this endpoint, once the reaper has been through. */
  function FindIdle(pool: seq<Node>, target: Endpoint): (r: Option<nat>)
    ensures r.Some? ==> r.value < |pool| && Idle(pool[r.value]) && Matches(target, pool[r.value].endpoint)
    ensures r.Some? ==> forall j | 0 <= j < r.value :: !(Idle(pool[j]) && Matches(target, pool[j].endpoint))
    ensures r.None? ==> forall j | 0 <= j < |pool| :: !(Idle(pool[j]) && Matches(target, pool[j].endpoint))
  {
    if pool == [] then None
    else if Idle(pool[0]) && Matches(target, pool[0].endpoint) then Some(0)
    else match FindIdle(pool[1..], target)
      case None => None
      case Some(i) => assert forall j | 1 <= j < |pool| :: pool[j] == pool[1..][j - 1]; Some(i + 1)
  }

  function TakenNode(n: Node, tick: nat): Node {
    n.(leased := true, reused := true, lastUpdate := tick)
  }

  /** A node given back by cleanup while its connection is still alive. */
  function ReturnedNode(n: Node, tick: nat): Node {
    n.(persistent := true, leased := false, reused := false, lastUpdate := tick)
  }

  function NewIdle(c: Client, ep: Endpoint, tick: nat): Node {
    Node(c, ep, tick, true, false, false)
  }
}
